# jMath expression engine: a Dafny model

jMath reads infix expressions such as `2*x + fib(10)`, evaluates them, and rewrites them with optimisation passes. This project models its core in Dafny:

- **Registry.** The parser's case-insensitive tables of constants, variables, operators and functions.
- **Tokeniser.** The dynamic-programming tokeniser `resolve`/`resolveRec`. It splits a space-separated string into typed tokens. It accepts only when exactly one reading fits the grammar table, and otherwise reports "cannot be resolved" or "is ambiguous".
- **Tree builder.** The shunting-yard builder `createAST`: the operator stack, the parenthesis stack, the recursive parse of function arguments, overload selection by arity, and assembly of the postfix queue into a tree.
- **Expressions.** `Expression` and its variable bindings, `ASTOperation` evaluation and `toString`.
- **Built-in functions and operators.** The ones the core names: logical operators, `<=`, `=`, `abs`, `indicator`, `to_logical`, `min`, `poly`, `gcd`, `lcm`, `fib`, `factorial`, `aseq`, `gseq`.
- **Optimiser.** Two optimisation passes (binary-operator simplifying and constant folding) and the optimiser's fixed-point driver.

Doubles are modelled as exact `real`s. A value counts as "true" when it is at least 1, as in the library's logical operators. Java's `(int)` and `(long)` casts of a double are written out as clamps (`Values.ToInt`, `Values.ToLong`). Java's `%` on `long`, which truncates toward zero, is `Euclid.JavaRem`.

Modules follow the program's structure:

| module | contents |
|---|---|
| `Text` | space removal, lower-casing, numerals |
| `Grammar` | token types and the table of allowed predecessors |
| `Operations` | operator and function descriptors, arities |
| `SymbolTable` | the registry and the `add*` operations |
| `Resolver` | the tokeniser and its correctness against an explicit notion of "reading" |
| `Parsing` | parenthesis balance and `parse` |
| `Builder` | `createAST` |
| `Chains` | which tree the builder makes of short operand and operator chains, for every registry |
| `BuildExamples` | concrete trees for precedence, associativity and calls |
| `Ast` | trees, evaluation, rendering, argument access |
| `Expressions` | `Expression` |
| `Values` | casts and the domains of integer arguments |
| `Builtins` | value semantics of the built-ins |
| `BuiltinLoops` | the loops the built-ins run, with invariants |
| `Euclid` | Java remainder, Euclid's loop, greatest common divisors |
| `GcdLcm` | `gcd` and `lcm` as written and as intended |
| `Passes` | the two optimisation passes |
| `Optimizer` | `applyRec`, `apply` and `optimize` |

The tokeniser's result is specified without reference to its algorithm:

- A *reading* of the input is a sequence of pieces. The pieces cover every non-space character. Each piece is a maximal space-free run of characters that the registry can type. Each piece's type may follow the previous one in the grammar table, and the last type may precede `End`.
- `Resolver.ResolveCorrect` proves that the memo-free recursion answers *unresolved* exactly when there is no reading and *ambiguous* exactly when there are two.
- `Resolver.Tokenize` proves that on success the tokens are exactly the unique reading.

The tree builder is checked in three ways:

- Against hand-computed trees: precedence, parentheses, right and left associativity, stacked prefix operators, overloads, and trailing and leading commas. The token lists `f(a,)` and `f(,a)` cannot come out of the tokeniser (the grammar table allows no `)` after `,` and no `,` after `(`), and `createAST` is private, so these two show what the builder itself does on such lists, not what `parse` can return.
- For every registry, on short chains (`Chains`): one infix operator between two operands, one prefix or postfix operator on an operand, and two infix operators, where precedence and associativity decide the root.
- Through `Builder.AssembleInvertsPostfix`: assembling the postfix items of any well-shaped tree gives back that tree.

Optimisation is proved sound for every rewrite whose evaluated value the source preserves, power rewrites only where the exponent evaluates to a natural number. It is proved to terminate under any set of passes that shrink trees; the default passes are such a set. The run reaches a fixed point.

## Model

| member | source | states |
|---|---|---|
| SymbolTable.AddConstant | jmath/src/main/java/pl/mateuszchudyk/jmath/Parser.java:317-330 | a constant is registered under its lower-cased name exactly when that name is free in all four tables; on refusal the registry is unchanged |
| SymbolTable.AddVariable | jmath/src/main/java/pl/mateuszchudyk/jmath/Parser.java:379-392 | a variable is registered under its lower-cased name, keeping its declared name, exactly when that name is free in all four tables; otherwise nothing changes |
| SymbolTable.AddOperator | jmath/src/main/java/pl/mateuszchudyk/jmath/Parser.java:424-449 | an operator is appended to the list for its lower-cased name exactly when no constant, variable or function has the name and no operator of the same position (prefix, infix, postfix) does; otherwise nothing changes |
| SymbolTable.AddFunction | jmath/src/main/java/pl/mateuszchudyk/jmath/Parser.java:502-522 | a function overload is appended under its lower-cased name exactly when no constant, variable or operator has that name; overloads of one name may coexist |
| SymbolTable.ValidKeysLowerCase | jmath/src/main/java/pl/mateuszchudyk/jmath/Parser.java:317-522 | in a registry built by the `add*` operations every known name, in any of the four tables, is its own lower-cased form |
| SymbolTable.AddConstantValid | jmath/src/main/java/pl/mateuszchudyk/jmath/Parser.java:317-330 | registering a constant keeps the registry's invariant: every key lower-case (a variable's declared name lower-cases to its key, an operator's or function's name to the key it is filed under), names in disjoint tables, non-empty operator and function lists, operators of one name at distinct positions |
| SymbolTable.AddVariableValid | jmath/src/main/java/pl/mateuszchudyk/jmath/Parser.java:379-392 | registering a variable keeps the same invariant, including that its key is the lower-cased declared name |
| SymbolTable.AddOperatorValid | jmath/src/main/java/pl/mateuszchudyk/jmath/Parser.java:424-449 | registering an operator keeps the registry's invariant, including distinct positions per name |
| SymbolTable.AddFunctionValid | jmath/src/main/java/pl/mateuszchudyk/jmath/Parser.java:502-522 | registering a function keeps the registry's invariant |
| SymbolTable.AtMostOneTable | jmath/src/main/java/pl/mateuszchudyk/jmath/Parser.java:317-330 | in a valid registry a name lives in at most one of the four tables |
| SymbolTable.OperatorAt | jmath/src/main/java/pl/mateuszchudyk/jmath/Parser.java:769-783 | the operators found for a token at a position all have that position, and in a valid registry there is at most one |
| SymbolTable.PossibleTypes | jmath/src/main/java/pl/mateuszchudyk/jmath/Parser.java:607-676 | a token type is offered exactly when the token fits it: a non-negative numeral, a registered constant, operator position, function or variable, or one of `(`, `)`, `.`, `,`; no type twice; never Begin or End |
| Grammar.FunctionShape | jmath/src/main/java/pl/mateuszchudyk/jmath/Parser.java:139-224 | the only token that may follow a function name is `(`; nothing may follow End or a decimal point |
| Grammar.EndShape | jmath/src/main/java/pl/mateuszchudyk/jmath/Parser.java:139-224 | an expression may end after Begin or after anything that closes an operand (value, constant, variable, postfix operator, `)`) |
| Grammar.AfterOperandShape | jmath/src/main/java/pl/mateuszchudyk/jmath/Parser.java:139-224 | infix and postfix operators and commas follow exactly the operand-closing types; `)` follows those or `(` |
| Text.RemoveSpaces | jmath/src/main/java/pl/mateuszchudyk/jmath/Parser.java:709-711 | the result has no spaces, is no longer than the input, and keeps a single character exactly when it is not a space |
| Text.RemoveSpacesAppend | jmath/src/main/java/pl/mateuszchudyk/jmath/Parser.java:709-711 | removing spaces distributes over concatenation, so with the one-character case the result is the input's non-space characters in order |
| Text.RemoveSpacesKeepsCharacters | jmath/src/main/java/pl/mateuszchudyk/jmath/Parser.java:709-711 | every non-space character occurs in the result as often as in the input |
| Text.ToLower | jmath/src/main/java/pl/mateuszchudyk/jmath/Parser.java:586 | lower-casing keeps the length, leaves no upper-case ASCII letter, maps each upper-case letter to the lower-case one at the same place in the alphabet and keeps every other character |
| Text.ToLowerIdempotent | jmath/src/main/java/pl/mateuszchudyk/jmath/Parser.java:586 | lower-casing twice is lower-casing once |
| Text.ToLowerCaseBlind | jmath/src/main/java/pl/mateuszchudyk/jmath/Parser.java:586 | two strings lower-case alike exactly when they agree character by character up to the case of letters |
| Text.NumeralCheck | jmath/src/main/java/pl/mateuszchudyk/jmath/Parser.java:610-615 | accepts exactly the numerals: digits, optionally a point followed by digits, and not a lone point |
| Text.NumeralSplitUnique | jmath/src/main/java/pl/mateuszchudyk/jmath/Parser.java:610-615 | a numeral splits into integer and fraction parts at one place only, the first point |
| Text.NumeralValue | jmath/src/main/java/pl/mateuszchudyk/jmath/Parser.java:612 | a numeral denotes a non-negative value |
| Resolver.ResolveCorrect | jmath/src/main/java/pl/mateuszchudyk/jmath/Parser.java:717-750 | the recursion answers unresolved iff no reading exists from that position and predecessor, ambiguous iff two readings exist, and otherwise the first type of every reading |
| Resolver.FoldCorrect | jmath/src/main/java/pl/mateuszchudyk/jmath/Parser.java:728-746 | the loop over candidate tokens and types ends unresolved iff no candidate is live, ambiguous iff one candidate is ambiguous or two are live, otherwise with the one live candidate's type |
| Resolver.ReadingVia | jmath/src/main/java/pl/mateuszchudyk/jmath/Parser.java:728-746 | a reading exists iff some candidate token that the predecessor allows has a reading after it |
| Resolver.TwoReadingsVia | jmath/src/main/java/pl/mateuszchudyk/jmath/Parser.java:728-746 | two readings exist iff one candidate has two readings after it or two candidates each have one |
| Resolver.EndCell | jmath/src/main/java/pl/mateuszchudyk/jmath/Parser.java:720-721 | at the end of the input the only reading is the empty one, and it exists iff the predecessor may precede End |
| Resolver.Walk | jmath/src/main/java/pl/mateuszchudyk/jmath/Parser.java:695-712 | following the resolved type at each position yields a reading of the input |
| Resolver.Tokenize | jmath/src/main/java/pl/mateuszchudyk/jmath/Parser.java:678-715 | the tokeniser reports cannot-be-resolved iff no reading exists, is-ambiguous iff two exist, and otherwise returns the texts and types of the one reading |
| Resolver.TokenizeTokens | jmath/src/main/java/pl/mateuszchudyk/jmath/Parser.java:695-712 | the tokens concatenate to the input without spaces, each follows its predecessor in the grammar table starting from Begin, and each is non-empty and space-free |
| Resolver.TrailingSpaceUnresolvable | jmath/src/main/java/pl/mateuszchudyk/jmath/Parser.java:720-734 | an input ending in a space cannot be resolved, because the end cell is reached only directly after a token |
| Parsing.Balanced | jmath/src/main/java/pl/mateuszchudyk/jmath/Parser.java:591-605 | the balance check accepts exactly the strings whose every prefix has no more `)` than `(` and whose totals match |
| Parsing.BalanceFromCorrect | jmath/src/main/java/pl/mateuszchudyk/jmath/Parser.java:594-604 | the counting loop from any position decides the prefix-depth condition on the rest of the string |
| Parsing.Parse | jmath/src/main/java/pl/mateuszchudyk/jmath/Parser.java:579-589 | the empty string yields no expression; an unbalanced string fails with imbalanced parentheses; an unreadable or ambiguous lower-cased string fails accordingly; a success holds the built tree, well shaped, with no bindings |
| Parsing.TrailingSpaceRejected | jmath/src/main/java/pl/mateuszchudyk/jmath/Parser.java:579-589 | a balanced input ending in a space is rejected as unresolvable |
| Parsing.ParsedTokens | jmath/src/main/java/pl/mateuszchudyk/jmath/Parser.java:579-589 | a successful parse came from the lower-cased input's unique tokenisation, which spells the input without spaces and follows the grammar table |
| Builder.Drained | jmath/src/main/java/pl/mateuszchudyk/jmath/Parser.java:874-883 | popping the operator stack emits its operators top first |
| Builder.KeptHeight | jmath/src/main/java/pl/mateuszchudyk/jmath/Parser.java:785-810 | the popping loop stops at the first height, from the top, where a stop rule applies, and no stop rule applies above it |
| Builder.PrefixKeepsStack | jmath/src/main/java/pl/mateuszchudyk/jmath/Parser.java:791-792 | a prefix operator never pops the stack |
| Builder.ParenthesisShields | jmath/src/main/java/pl/mateuszchudyk/jmath/Parser.java:788-789 | no operator below the innermost open parenthesis is popped |
| Builder.Associativity | jmath/src/main/java/pl/mateuszchudyk/jmath/Parser.java:794-803 | an infix operator meeting itself on the stack stays above it when right-associative and pops it when left-associative or associative both ways |
| Builder.Matching | jmath/src/main/java/pl/mateuszchudyk/jmath/Parser.java:850-860 | the overloads kept are exactly those accepting the argument count |
| Builder.MatchingTwo | jmath/src/main/java/pl/mateuszchudyk/jmath/Parser.java:850-860 | two or more overloads match iff two distinct positions in the list accept the count |
| Builder.Overload | jmath/src/main/java/pl/mateuszchudyk/jmath/Parser.java:850-862 | a call resolves to an accepting overload when exactly one accepts; it fails cannot-be-resolved when none does and is-ambiguous when two do |
| Builder.Build | jmath/src/main/java/pl/mateuszchudyk/jmath/Parser.java:752-924 | a built tree is well shaped (infix nodes have two children, prefix and postfix one); no token list gives imbalanced parentheses from here; the empty token list cannot be built |
| Builder.BuildFromLoop | jmath/src/main/java/pl/mateuszchudyk/jmath/Parser.java:881-924 | building is the token loop, then draining the stack onto the queue, then assembling the queue |
| Builder.Loop | jmath/src/main/java/pl/mateuszchudyk/jmath/Parser.java:757-880 | the token loop keeps every queued tree well shaped and reports no parenthesis error |
| Builder.DrainedSplit | jmath/src/main/java/pl/mateuszchudyk/jmath/Parser.java:872-883 | draining the stack above a height and then the rest queues the same operators in the same order as draining it all at once |
| Builder.Placed | jmath/src/main/java/pl/mateuszchudyk/jmath/Parser.java:785-811 | placing an operator cuts the stack to the kept height and pushes the operator; the popped operators are queued top first, so the queue followed by the drained stack below the new operator is what the queue and the drained old stack were; the parenthesis marks are untouched |
| Builder.PlaceThen | jmath/src/main/java/pl/mateuszchudyk/jmath/Parser.java:769-811 | an operator token with no entry at its position crashes |
| Builder.PlaceThenPlaces | jmath/src/main/java/pl/mateuszchudyk/jmath/Parser.java:769-811 | an operator token with an entry at its position places the first such entry, and the loop goes on with the next token |
| Builder.CallThen | jmath/src/main/java/pl/mateuszchudyk/jmath/Parser.java:813-848 | a call whose argument scan fails fails with that error; a call to a name with no overloads crashes |
| Builder.CallThenCalls | jmath/src/main/java/pl/mateuszchudyk/jmath/Parser.java:813-866 | once the arguments are built and the name is known, the call goes on as overload selection among the name's overloads, with those arguments and the index of the closing `)` |
| Builder.Called | jmath/src/main/java/pl/mateuszchudyk/jmath/Parser.java:850-866 | when no single overload accepts the argument count, the call fails with the overload error (cannot be resolved or ambiguous) |
| Builder.CalledQueues | jmath/src/main/java/pl/mateuszchudyk/jmath/Parser.java:850-866 | with an overload found, the loop goes on after the call's `)` with exactly one more tree queued, that overload applied to the arguments in order, and the stacks unchanged |
| Builder.Closed | jmath/src/main/java/pl/mateuszchudyk/jmath/Parser.java:871-876 | a `)` drops the innermost mark and cuts the stack to the recorded height (a lower stack stays as it is); the operators removed are queued top first, and the queue followed by the drained stack is unchanged |
| Builder.CloseThen | jmath/src/main/java/pl/mateuszchudyk/jmath/Parser.java:871-876 | a `)` with no mark open crashes, as popping the empty parenthesis stack does |
| Builder.CloseThenCloses | jmath/src/main/java/pl/mateuszchudyk/jmath/Parser.java:871-876 | with a mark open, a `)` closes it as `Closed` states, and the loop goes on with the next token |
| Builder.Arguments | jmath/src/main/java/pl/mateuszchudyk/jmath/Parser.java:820-848 | the argument scan ends within the tokens, no earlier than where it starts, and builds every argument well shaped |
| Builder.ArgumentsEndAtMatchingClose | jmath/src/main/java/pl/mateuszchudyk/jmath/Parser.java:820-846 | the scan ends at a `)` that brings the nesting depth back to zero and the depth never drops below zero before it, so it is the parenthesis matching the call's own; the arguments collected before stay in front |
| Builder.Assemble | jmath/src/main/java/pl/mateuszchudyk/jmath/Parser.java:885-923 | assembling a queue yields a well-shaped tree or fails with cannot-create-AST or a crash |
| Builder.AssemblePostfix | jmath/src/main/java/pl/mateuszchudyk/jmath/Parser.java:885-918 | assembling the postfix items of a tree pushes exactly that tree |
| Builder.AssembleInvertsPostfix | jmath/src/main/java/pl/mateuszchudyk/jmath/Parser.java:885-923 | assembly inverts postfix order: the postfix items of any well-shaped tree assemble back to it |
| Chains.OperandStep | jmath/src/main/java/pl/mateuszchudyk/jmath/Parser.java:760-768 | a numeral, constant or variable token queues its tree and the loop goes on with the next token |
| Chains.KeptOfOne | jmath/src/main/java/pl/mateuszchudyk/jmath/Parser.java:785-810 | with one infix operator stacked and no parenthesis open, an arriving infix operator keeps it exactly when the stacked one has the greater priority number (binds less tightly), or when the arriving one is right-associative and meets an operator of its own name and priority; otherwise it pops it |
| Chains.Binary | jmath/src/main/java/pl/mateuszchudyk/jmath/Parser.java:752-924 | for every registry, `x o y` with operands `x`, `y` and an infix `o` builds `o` applied to `x` and `y` |
| Chains.PrefixOnOperand | jmath/src/main/java/pl/mateuszchudyk/jmath/Parser.java:752-924 | for every registry, a prefix operator followed by an operand builds the operator applied to that operand |
| Chains.PostfixOnOperand | jmath/src/main/java/pl/mateuszchudyk/jmath/Parser.java:752-924 | for every registry, an operand followed by a postfix operator builds the operator applied to that operand |
| Chains.ChainOfTwo | jmath/src/main/java/pl/mateuszchudyk/jmath/Parser.java:785-811 | for every registry, `x o1 y o2 z` builds `x o1 (y o2 z)` when `o1` binds less tightly than `o2`, or `o2` is right-associative and meets itself, and `(x o1 y) o2 z` otherwise: the stop rules decide which operator becomes the root |
| BuildExamples.Precedence | jmath/src/main/java/pl/mateuszchudyk/jmath/Parser.java:794-796 | `a + b * c` builds as a + (b * c), the `ChainOfTwo` case where `+` binds less tightly |
| BuildExamples.Parenthesised | jmath/src/main/java/pl/mateuszchudyk/jmath/Parser.java:868-876 | `(a + b) * c` builds as (a + b) * c |
| BuildExamples.RightAssociative | src/test/java/pl/mateuszchudyk/jmath/SimpleExpressionTest.java:63 | `a ^ b ^ c` builds as a ^ (b ^ c), the `ChainOfTwo` case of a right-associative operator meeting itself |
| BuildExamples.LeftAssociative | jmath/src/main/java/pl/mateuszchudyk/jmath/Parser.java:794-809 | `a + b + c` builds as (a + b) + c, the `ChainOfTwo` case where the second `+` pops the first |
| BuildExamples.StackedPrefix | jmath/src/main/java/pl/mateuszchudyk/jmath/Parser.java:791-792 | `- - a` builds as -(-a) |
| BuildExamples.SingleVariable | jmath/src/main/java/pl/mateuszchudyk/jmath/Parser.java:766-767 | a lone variable token builds to that variable under its declared name |
| BuildExamples.CallPicksOverload | jmath/src/main/java/pl/mateuszchudyk/jmath/Parser.java:850-866 | `f(a, b)` picks the two-argument overload of `f` |
| BuildExamples.TrailingCommaDropped | jmath/src/main/java/pl/mateuszchudyk/jmath/Parser.java:835-848 | on the token list `f(a,)`, which the tokeniser never produces, the builder drops the empty trailing segment and builds a one-argument call |
| BuildExamples.LeadingCommaFails | jmath/src/main/java/pl/mateuszchudyk/jmath/Parser.java:835-842 | on the token list `f(,a)`, which the tokeniser never produces, the builder fails: the empty leading segment cannot be built |
| Ast.EvalOp | src/main/java/pl/mateuszchudyk/jmath/ast/ASTOperation.java:44-54 | a built-in given fewer arguments than it reads fails as malformed; an operation from outside the model defers to the supplied oracle |
| Ast.BuiltinsNeverNull | src/main/java/pl/mateuszchudyk/jmath/ast/ASTOperation.java:49-51 | only division, power and outside operations can yield no value |
| Ast.EvalArgsInOrder | src/main/java/pl/mateuszchudyk/jmath/ast/ASTOperation.java:46-47 | arguments are evaluated left to right and the first failure is the result |
| Ast.EvaluateReadsOnlyItsVariables | src/main/java/pl/mateuszchudyk/jmath/ast/ASTOperation.java:44-54 | evaluation depends only on the bindings of the tree's own variables |
| Ast.UnboundVariableReported | jmath/src/main/java/pl/mateuszchudyk/jmath/Expression.java:74-85 | an unbound variable, alone or under unary negation, is reported by its name |
| Ast.UnboundVariableFails | jmath/src/main/java/pl/mateuszchudyk/jmath/Expression.java:74-85 | evaluation of any tree fails when any one of its variables is unbound |
| Ast.UnsetVariablesFail | jmath/src/main/java/pl/mateuszchudyk/jmath/Expression.java:74-85 | evaluation fails unless every variable of the tree is bound |
| Ast.UnboundReportIsGenuine | jmath/src/main/java/pl/mateuszchudyk/jmath/Expression.java:74-85 | when operations outside the model never report a variable, an "unbound variable" error names a variable of the tree that is indeed unbound |
| Ast.EvalOpReportsNoVariables | src/main/java/pl/mateuszchudyk/jmath/ast/ASTOperation.java:44-54 | applying an operation reports an unbound variable only if an operation outside the model does |
| Ast.NullResultReported | src/main/java/pl/mateuszchudyk/jmath/ast/ASTOperation.java:49-51 | an operation that yields no value is reported as a failure naming it |
| Ast.RenderLines | src/main/java/pl/mateuszchudyk/jmath/ast/ASTOperation.java:57-75 | rendering puts one line per tree node |
| Ast.TagSingleLine | src/main/java/pl/mateuszchudyk/jmath/ast/ASTOperation.java:65-72 | the kind tag holds no line break |
| Ast.GetArgument | src/main/java/pl/mateuszchudyk/jmath/ast/ASTOperation.java:85-90 | reading an argument fails exactly for a position outside the arguments |
| Ast.SetArgument | src/main/java/pl/mateuszchudyk/jmath/ast/ASTOperation.java:92-97 | writing an argument keeps the argument count |
| Ast.SetThenGet | src/main/java/pl/mateuszchudyk/jmath/ast/ASTOperation.java:85-97 | reading back a written position gives the new argument; every other position, and any write out of range, leaves the arguments as they were |
| Expressions.New | jmath/src/main/java/pl/mateuszchudyk/jmath/Expression.java:42-45 | a new expression holds its tree and no bindings |
| Expressions.SetVariable | jmath/src/main/java/pl/mateuszchudyk/jmath/Expression.java:57-59 | setting a variable binds it to the value, keeps the tree and every other binding |
| Expressions.SetVariables | jmath/src/main/java/pl/mateuszchudyk/jmath/Expression.java:66-72 | a missing map changes nothing; otherwise the map's bindings override the existing ones and the others stay |
| Expressions.Evaluate | jmath/src/main/java/pl/mateuszchudyk/jmath/Expression.java:83-85 | fails whenever some variable of the tree is unset; a single-variable expression fails exactly when its variable is unset |
| Expressions.SetVariableEffect | jmath/src/main/java/pl/mateuszchudyk/jmath/Expression.java:57-85 | binding a variable the tree does not use leaves its value unchanged; binding the only variable gives that value |
| Expressions.ToString | jmath/src/main/java/pl/mateuszchudyk/jmath/Expression.java:95-97 | the text of an operation is at least as long as the operation's name |
| Builtins.ToLogical | jmath/src/main/java/pl/mateuszchudyk/jmath/functions/ToLogical.java:49-51 | the result is 0 or 1, and 1 exactly when the argument is true |
| Builtins.ToLogicalIdempotent | jmath/src/main/java/pl/mateuszchudyk/jmath/functions/ToLogical.java:49-51 | applying to_logical twice is applying it once |
| Builtins.And | jmath/src/main/java/pl/mateuszchudyk/jmath/operators/And.java:51-52 | the result is 0 or 1, and 1 exactly when both operands are true |
| Builtins.AndLaws | jmath/src/main/java/pl/mateuszchudyk/jmath/operators/And.java:51-52 | `and` is commutative; a true operand reduces it to to_logical of the other; a false one makes it 0 |
| Builtins.LessEq | jmath/src/main/java/pl/mateuszchudyk/jmath/operators/LessThenOrEqual.java:51-52 | the result is 0 or 1, and 1 exactly when the left operand is at most the right |
| Builtins.LessEqLaws | jmath/src/main/java/pl/mateuszchudyk/jmath/operators/LessThenOrEqual.java:51-52 | `<=` is reflexive, total and antisymmetric |
| Builtins.Equal | src/main/java/pl/mateuszchudyk/jmath/operators/Equal.java:44-45 | the result is 0 or 1, and 1 exactly when the operands are equal |
| Builtins.EqualLaws | src/main/java/pl/mateuszchudyk/jmath/operators/Equal.java:44-45 | `=` is reflexive and symmetric, and it is the product of `<=` both ways |
| Builtins.Abs | jmath/src/main/java/pl/mateuszchudyk/jmath/functions/AbsoluteValue.java:49-50 | the result is non-negative and is the argument or its negation |
| Builtins.AbsLaws | jmath/src/main/java/pl/mateuszchudyk/jmath/functions/AbsoluteValue.java:49-50 | abs ignores sign, is idempotent, and is zero only at zero |
| Builtins.Indicator | jmath/src/main/java/pl/mateuszchudyk/jmath/functions/Indicator.java:49-50 | the result is 0 or 1, and 1 exactly when a <= x <= b |
| Builtins.IndicatorLaws | jmath/src/main/java/pl/mateuszchudyk/jmath/functions/Indicator.java:49-50 | an empty interval gives 0; a degenerate interval contains its point |
| Builtins.Minimum | jmath/src/main/java/pl/mateuszchudyk/jmath/functions/Minimum.java:50-57 | the result is one of the arguments and at most each of them |
| Builtins.HornerIsPowerSum | jmath/src/main/java/pl/mateuszchudyk/jmath/functions/Polynomial.java:50-58 | Horner's scheme computes the sum of the coefficients times increasing powers of x |
| Builtins.Polynomial | jmath/src/main/java/pl/mateuszchudyk/jmath/functions/Polynomial.java:50-58 | poly(x, a0, a1, ...) is a0 + a1 x + a2 x^2 + ...; at x = 0, or with one coefficient, it is a0 |
| Builtins.Fibonacci | jmath/src/main/java/pl/mateuszchudyk/jmath/functions/Fibonacci.java:62-80 | fib fails, naming argument 1, exactly when the argument is not a non-negative int; otherwise it is the Fibonacci number |
| Builtins.Factorial | jmath/src/main/java/pl/mateuszchudyk/jmath/functions/Factorial.java:57-72 | factorial fails, naming argument 1, exactly when the argument is not a non-negative int; otherwise it is n! |
| Builtins.ArithmeticSeq | jmath/src/main/java/pl/mateuszchudyk/jmath/functions/ArithmeticSequence.java:52-59 | aseq fails exactly when the index (third argument) is not a non-negative int; the error names argument 1 with the first argument's value, as written |
| Builtins.GeometricSeq | jmath/src/main/java/pl/mateuszchudyk/jmath/functions/GeometricSequence.java:52-59 | gseq fails exactly when the index is not a non-negative int; the error is reported as for aseq |
| Builtins.ArithmeticSeqTerms | jmath/src/main/java/pl/mateuszchudyk/jmath/functions/ArithmeticSequence.java:52-59 | term 0 is a0 and each next term adds the difference r |
| Builtins.GeometricSeqTerms | jmath/src/main/java/pl/mateuszchudyk/jmath/functions/GeometricSequence.java:52-59 | term 0 is a0 and each next term multiplies by the ratio q |
| BuiltinLoops.GcdLoop | src/main/java/pl/mateuszchudyk/jmath/functions/GreatestCommonDivisor.java:46-71 | the loop with early exit computes the modelled gcd and fails exactly when the first argument is not a positive int |
| BuiltinLoops.FibTable | jmath/src/main/java/pl/mateuszchudyk/jmath/functions/Fibonacci.java:42-49 | the lookup table holds 100 entries obeying the Fibonacci recurrence from 0, 1 |
| BuiltinLoops.FibEvaluate | jmath/src/main/java/pl/mateuszchudyk/jmath/functions/Fibonacci.java:62-80 | lookup below 100 and the iterative loop above it both give fib of the argument |
| BuiltinLoops.FactorialEvaluate | jmath/src/main/java/pl/mateuszchudyk/jmath/functions/Factorial.java:57-72 | the cached loop gives n!, keeps the cache correct and adds only the computed entry |
| BuiltinLoops.PolynomialLoop | jmath/src/main/java/pl/mateuszchudyk/jmath/functions/Polynomial.java:50-58 | the backward loop gives the power-sum value of the polynomial |
| BuiltinLoops.MinimumLoop | jmath/src/main/java/pl/mateuszchudyk/jmath/functions/Minimum.java:50-57 | the scan returns an argument no larger than any argument |
| Euclid.JavaRem | src/main/java/pl/mateuszchudyk/jmath/functions/GreatestCommonDivisor.java:61-65 | Java's remainder completes the truncated quotient (`(a / b) * b + a % b == a`), is smaller than the divisor in magnitude and takes the sign of the dividend |
| Euclid.JavaRemSigns | src/main/java/pl/mateuszchudyk/jmath/functions/GreatestCommonDivisor.java:61-65 | the remainder ignores the divisor's sign, flips with the dividend's, and agrees with the mathematical remainder on non-negative operands |
| Euclid.EuclidLoopIsGcd | src/main/java/pl/mateuszchudyk/jmath/functions/GreatestCommonDivisor.java:61-65 | Euclid's loop returns the greatest common divisor of its two inputs |
| Euclid.GcdStepIsGcd | src/main/java/pl/mateuszchudyk/jmath/functions/GreatestCommonDivisor.java:58-66 | one step of gcd (larger and smaller of the running value and the next argument) gives their greatest common divisor |
| Euclid.GcdExtend | src/main/java/pl/mateuszchudyk/jmath/functions/GreatestCommonDivisor.java:54-69 | extending a list by one positive value extends its gcd by one step |
| GcdLcm.Gcd | src/main/java/pl/mateuszchudyk/jmath/functions/GreatestCommonDivisor.java:46-71 | as written: fails, naming argument 1, exactly when the first argument is not a positive int; later arguments are not checked |
| GcdLcm.GcdIsGreatestCommonDivisor | src/main/java/pl/mateuszchudyk/jmath/functions/GreatestCommonDivisor.java:46-71 | over positive integer arguments gcd succeeds and returns their greatest common divisor |
| GcdLcm.EarlyExitHarmless | src/main/java/pl/mateuszchudyk/jmath/functions/GreatestCommonDivisor.java:67-68 | stopping once the running gcd is 1 gives the same result as running to the end |
| GcdLcm.GcdSingle | src/main/java/pl/mateuszchudyk/jmath/functions/GreatestCommonDivisor.java:46-71 | gcd of one positive int is that int |
| GcdLcm.GcdLaterArgumentsUnchecked | src/main/java/pl/mateuszchudyk/jmath/functions/GreatestCommonDivisor.java:48-52 | gcd(4, 2.5) succeeds with 2 and gcd(4, -6) succeeds with -2, although both inputs lie outside the domain |
| GcdLcm.GcdChecked | src/main/java/pl/mateuszchudyk/jmath/functions/GreatestCommonDivisor.java:46-71 | corrected: fails exactly when some argument is not a positive int, naming that argument; otherwise returns the greatest common divisor |
| GcdLcm.Lcm | jmath/src/main/java/pl/mateuszchudyk/jmath/functions/LeastCommonMultiple.java:51-65 | as written: fails, naming argument 1, exactly when the first argument is not a positive int |
| GcdLcm.LcmIsCommonMultiple | jmath/src/main/java/pl/mateuszchudyk/jmath/functions/LeastCommonMultiple.java:51-65 | over positive integer arguments lcm succeeds with a common multiple of all of them |
| GcdLcm.LcmOfOne | jmath/src/main/java/pl/mateuszchudyk/jmath/functions/LeastCommonMultiple.java:51-65 | lcm of one positive int is that int |
| GcdLcm.LcmOfTwo | jmath/src/main/java/pl/mateuszchudyk/jmath/functions/LeastCommonMultiple.java:59-63 | for two arguments lcm times gcd is their product, so lcm is the least common multiple there |
| GcdLcm.LcmOfThreeNotLeast | jmath/src/main/java/pl/mateuszchudyk/jmath/functions/LeastCommonMultiple.java:59-63 | lcm(2, 3, 4) returns 24 although 12 is a common multiple |
| GcdLcm.LcmLaterArgumentsUnchecked | jmath/src/main/java/pl/mateuszchudyk/jmath/functions/LeastCommonMultiple.java:53-63 | only the first argument's domain is checked: lcm(4, 2.5) returns 5, which is no multiple of 4 |
| GcdLcm.Lcm2IsLcm | jmath/src/main/java/pl/mateuszchudyk/jmath/functions/LeastCommonMultiple.java:59-63 | a * (b / gcd(a, b)) is the least common multiple of a and b |
| GcdLcm.LcmFoldIsLcm | jmath/src/main/java/pl/mateuszchudyk/jmath/functions/LeastCommonMultiple.java:59-63 | folding the two-argument lcm over a list gives the list's least common multiple |
| GcdLcm.LcmChecked | jmath/src/main/java/pl/mateuszchudyk/jmath/functions/LeastCommonMultiple.java:51-65 | corrected: fails exactly when some argument is not a positive int, naming it; otherwise returns the least common multiple |
| Values.ToInt | jmath/src/main/java/pl/mateuszchudyk/jmath/functions/Fibonacci.java:63 | Java's `(int)` of a double is its floor when that fits in 32 bits, and saturates at the nearer bound otherwise |
| Values.ToLong | src/main/java/pl/mateuszchudyk/jmath/functions/GreatestCommonDivisor.java:56 | Java's `(long)` of a double is its floor when that fits in 64 bits, and saturates at the nearer bound otherwise |
| Values.DomainChecks | jmath/src/main/java/pl/mateuszchudyk/jmath/functions/Fibonacci.java:63-65 | the index domain is the integers from 0 to the int maximum; the positive domain is those from 1 |
| Passes.Rewrite | jmath/src/main/java/pl/mateuszchudyk/jmath/optimizations/BinaryOperatorSimplifying.java:65-189 | every rewrite result is the left or right operand, to_logical or not of one, negation of the right, or a 0 or 1 literal |
| Passes.Simplify | jmath/src/main/java/pl/mateuszchudyk/jmath/optimizations/BinaryOperatorSimplifying.java:38-63 | the pass fires only on infix operations with two arguments, at least one of them a literal |
| Passes.SimplifyShrinks | jmath/src/main/java/pl/mateuszchudyk/jmath/optimizations/BinaryOperatorSimplifying.java:38-191 | every rewrite makes the tree strictly lighter |
| Passes.LogicAlwaysRewrites | jmath/src/main/java/pl/mateuszchudyk/jmath/optimizations/BinaryOperatorSimplifying.java:80-189 | a logical operator with a literal operand is always rewritten |
| Passes.ArithmeticRewritesSound | jmath/src/main/java/pl/mateuszchudyk/jmath/optimizations/BinaryOperatorSimplifying.java:69-107 | the add, sub, mul and div rewrites keep the value of an expression that evaluates |
| Passes.LogicRewritesSound | jmath/src/main/java/pl/mateuszchudyk/jmath/optimizations/BinaryOperatorSimplifying.java:80-189 | the and, or, nand, nor and xor rewrites keep the value |
| Passes.PowerRewritesSound | jmath/src/main/java/pl/mateuszchudyk/jmath/optimizations/BinaryOperatorSimplifying.java:155-164 | the x^0, x^1 and 1^x rewrites keep the value for natural exponents |
| Passes.SimplifySound | jmath/src/main/java/pl/mateuszchudyk/jmath/optimizations/BinaryOperatorSimplifying.java:38-191 | every rewrite other than 0^x keeps the value of an expression that evaluates, for power rewrites when the exponent evaluates to a natural number |
| Passes.ZeroPowerRule | jmath/src/main/java/pl/mateuszchudyk/jmath/optimizations/BinaryOperatorSimplifying.java:160-161 | 0^x becomes 0, which keeps the value exactly when x is not 0 |
| Passes.ZeroPowerChangesValue | jmath/src/main/java/pl/mateuszchudyk/jmath/optimizations/BinaryOperatorSimplifying.java:160-161 | with y bound to 0, 0^y evaluates to 1 but its rewrite to 0 |
| Passes.RewriteDropsFailure | jmath/src/main/java/pl/mateuszchudyk/jmath/optimizations/BinaryOperatorSimplifying.java:101-103 | 0 * y with y unbound fails, but its rewrite evaluates to 0 |
| Passes.AddExamples | jmath/src/test/java/pl/mateuszchudyk/jmath/optimizations/BinaryOperatorSimplifyingTest.java:39-40 | `x + 0` and `0 + x` are rewritten to `x` |
| Passes.AndExamples | jmath/src/test/java/pl/mateuszchudyk/jmath/optimizations/BinaryOperatorSimplifyingTest.java:42-45 | `x and true` and `true and x` become `to_logical(x)`; `x and false` and `false and x` become 0 |
| Passes.DivExamples | jmath/src/test/java/pl/mateuszchudyk/jmath/optimizations/BinaryOperatorSimplifyingTest.java:47 | `x / 1` is rewritten to `x` |
| Passes.MulExamples | jmath/src/test/java/pl/mateuszchudyk/jmath/optimizations/BinaryOperatorSimplifyingTest.java:49-52 | `x * 0` and `0 * x` become 0; `x * 1` and `1 * x` become `x` |
| Passes.NandExamples | jmath/src/test/java/pl/mateuszchudyk/jmath/optimizations/BinaryOperatorSimplifyingTest.java:54-57 | `x nand true` and `true nand x` become `not(x)`; `x nand false` and `false nand x` become 1 |
| Passes.NorExamples | jmath/src/test/java/pl/mateuszchudyk/jmath/optimizations/BinaryOperatorSimplifyingTest.java:59-62 | `x nor true` and `true nor x` become 0; `x nor false` and `false nor x` become `not(x)` |
| Passes.OrExamples | jmath/src/test/java/pl/mateuszchudyk/jmath/optimizations/BinaryOperatorSimplifyingTest.java:64-67 | `x or true` and `true or x` become 1; `x or false` and `false or x` become `to_logical(x)` |
| Passes.PowExamples | jmath/src/test/java/pl/mateuszchudyk/jmath/optimizations/BinaryOperatorSimplifyingTest.java:69-72 | `x ^ 0` becomes 1, `x ^ 1` becomes `x`, `0 ^ x` becomes 0, `1 ^ x` becomes 1 |
| Passes.SubExamples | jmath/src/test/java/pl/mateuszchudyk/jmath/optimizations/BinaryOperatorSimplifyingTest.java:74-75 | `x - 0` becomes `x` and `0 - x` becomes `-x` |
| Passes.XorExamples | jmath/src/test/java/pl/mateuszchudyk/jmath/optimizations/BinaryOperatorSimplifyingTest.java:77-80 | `x xor true` and `true xor x` become `not(x)`; `x xor false` and `false xor x` become `to_logical(x)` |
| Passes.DeclineExamples | jmath/src/main/java/pl/mateuszchudyk/jmath/optimizations/BinaryOperatorSimplifying.java:38-63 | `x + y` is left alone, and so is a function (not an operator) that happens to be named `+` |
| Passes.Fold | src/main/java/pl/mateuszchudyk/jmath/optimizations/ConstantFolding.java:35-56 | folding fires only on operations whose arguments are all literals, and on those exactly when evaluation succeeds |
| Passes.FoldSound | src/main/java/pl/mateuszchudyk/jmath/optimizations/ConstantFolding.java:48-49 | a folded literal has the value of the operation under any bindings |
| Passes.FoldShrinks | src/main/java/pl/mateuszchudyk/jmath/optimizations/ConstantFolding.java:48-49 | folding makes the tree strictly lighter |
| Passes.FoldExamples | jmath/src/test/java/pl/mateuszchudyk/jmath/optimizations/ConstantFoldingTest.java:39-42 | 2 + 3 folds to 5; x + 2, x and a literal do not fold |
| Optimizer.ApplyRec | jmath/src/main/java/pl/mateuszchudyk/jmath/Optimizer.java:117-147 | on a leaf the pass is run directly |
| Optimizer.ApplyRecCases | jmath/src/main/java/pl/mateuszchudyk/jmath/Optimizer.java:122-143 | on an operation: with no child changed the pass runs on the node itself; otherwise the node is rebuilt from the changed children and the pass's result, if any, replaces it |
| Optimizer.ApplyRecDeclines | jmath/src/main/java/pl/mateuszchudyk/jmath/Optimizer.java:117-147 | the traversal reports no change exactly when the pass declines on every node |
| Optimizer.ApplyRecShrinks | jmath/src/main/java/pl/mateuszchudyk/jmath/Optimizer.java:117-147 | a traversal with a shrinking pass shrinks the tree whenever it changes it |
| Optimizer.ApplyPass | jmath/src/main/java/pl/mateuszchudyk/jmath/Optimizer.java:109-115 | no pass, or a pass that changes nothing, returns the expression itself; otherwise a new expression with the rewritten tree and no bindings |
| Optimizer.Sweep | jmath/src/main/java/pl/mateuszchudyk/jmath/Optimizer.java:88-96 | one sweep reports a change exactly when some pass applies, and without change keeps the tree |
| Optimizer.SweepShrinks | jmath/src/main/java/pl/mateuszchudyk/jmath/Optimizer.java:88-96 | a sweep of shrinking passes never grows the tree and shrinks it when it changes |
| Optimizer.Settle | jmath/src/main/java/pl/mateuszchudyk/jmath/Optimizer.java:84-100 | when the loop ends its tree is a fixed point of every pass |
| Optimizer.Optimize | jmath/src/main/java/pl/mateuszchudyk/jmath/Optimizer.java:84-100 | the optimised expression has no bindings and a fixed-point tree |
| Optimizer.SettleFixedPoint | jmath/src/main/java/pl/mateuszchudyk/jmath/Optimizer.java:88-97 | a tree already at a fixed point is returned unchanged |
| Optimizer.SettleIdempotent | jmath/src/main/java/pl/mateuszchudyk/jmath/Optimizer.java:84-100 | optimising an optimised tree gives it back |
| Optimizer.SettleTerminates | jmath/src/main/java/pl/mateuszchudyk/jmath/Optimizer.java:84-100 | with shrinking passes the loop ends within the tree's weight in rounds, without growing it |
| Optimizer.SettleBudget | jmath/src/main/java/pl/mateuszchudyk/jmath/Optimizer.java:84-100 | extra rounds beyond termination change nothing |
| Optimizer.SettleStep | jmath/src/main/java/pl/mateuszchudyk/jmath/Optimizer.java:88-97 | a changing sweep leads to the same final tree |
| Optimizer.SweepLoop | jmath/src/main/java/pl/mateuszchudyk/jmath/Optimizer.java:89-96 | the inner loop over the passes computes one sweep |
| Optimizer.OptimizeLoop | jmath/src/main/java/pl/mateuszchudyk/jmath/Optimizer.java:84-100 | with shrinking passes the do-while loop terminates at a fixed point no heavier than the input, with no bindings |
| Optimizer.DefaultPasses | jmath/src/main/java/pl/mateuszchudyk/jmath/Optimizer.java:57-64 | both default passes shrink trees |
| Optimizer.NoPassesKeepTree | src/main/java/pl/mateuszchudyk/jmath/Optimizer.java:40-45 | the empty default optimiser returns a fresh expression with the same tree |
| Optimizer.DefaultSettles | jmath/src/main/java/pl/mateuszchudyk/jmath/Optimizer.java:57-100 | the default optimiser always reaches a fixed point |
| Optimizer.ApplyExample | jmath/src/main/java/pl/mateuszchudyk/jmath/Optimizer.java:109-115 | applying the simplifying pass to x + 0 gives x with no bindings |
| Optimizer.RebuildExample | jmath/src/main/java/pl/mateuszchudyk/jmath/Optimizer.java:122-143 | folding (2 + 3) * x rebuilds the product over the folded 5 |

## Left out

- The memo table of `resolveRec` is replaced by plain recursion over (position, predecessor). The table does not change any answer.
- The replay loop of `resolve` (Parser.java:695-712) reads the table column by column and takes the first resolved cell in each column. It is modelled by `Resolver.Walk`, which follows the unique reading. When the answer is unique, every resolved cell that was explored lies on that reading, so the two agree.
- Text.NumeralCheck: `Double.parseDouble` is modelled only on plain non-negative decimal numerals (digits and at most one point). Exponents, signs, hexadecimal forms, `NaN` and `Infinity` are not modelled, and neither is the rounding of long numerals. Nor are two forms the tokeniser can hand to `parseDouble`: a type suffix (`2d`, `5f`, `1D`) and surrounding control whitespace such as a tab (`\t5`), which stays inside a token because only `' '` is removed. Java accepts both as numbers; the model finds them unresolvable.
- Text.ToLower: lower-cases ASCII letters only and always keeps the length. Java's `toLowerCase()` follows Unicode and the default locale and may change the length (`İ` becomes two characters); registry keys and parsed input outside ASCII are therefore not modelled faithfully.
- IEEE doubles are modelled as exact reals. Rounding, overflow to infinity, `NaN` and the sign of zero are not modelled, and `Double.equals` in `=` becomes real equality.
- The default catalogue of constants, operators and functions registered by the parser's constructor (Parser.java:226-304) is not modelled. The examples use small registries of their own. `aseq` and `gseq` are not in that catalogue, although their classes exist.
- The source files of the arithmetic operators (`+`, `-`, unary `-`, `*`, `/`, `^`) and of the logical operators or, nand, nor, xor and not are not part of this model. `Ast.EvalOp` gives them their evident meaning over exact reals; this meaning is assumed, not read from their code. They compute sum, difference, negation, product, quotient and natural powers. The logical ones follow the convention of `and` (true when at least 1), through `Builtins.Or`, `Builtins.Nand`, `Builtins.Nor`, `Builtins.Xor` and `Builtins.Not`.
- Only three cases evaluate through the supplied oracle: an operation of kind `Other`, a division by zero, and a `^` with a non-natural exponent. Kind `Other` covers every operation outside the model, among them the trigonometric and logarithmic functions, random numbers, rounding and `pow`.
- `Mean`, `StandardDeviation`, `LagrangePolynomial`, `Root` and the other functions not named above are not part of this model.
- Unchecked Java exceptions inside `createAST` are collapsed into one `Crashed` error. These include a null operator when a token has no entry at its position, an empty stack while assembling, and running past the end of the tokens while scanning arguments. The Java exception types are not distinguished.
- Builder.Build: which tree is built is proved for the chains in `Chains` and the examples in `BuildExamples`, not for arbitrary token lists. For every list the contract states only the shape of the tree and the error cases.
- Builder.Loop: its own contract states only the shape of the queue. The order in which operators are queued is stated one step at a time by `Builder.Placed`, `Builder.Closed`, `Builder.CalledQueues`, `Builder.PlaceThenPlaces` and `Builder.CloseThenCloses`, and for whole token lists only in `Chains`.
- Builder.Arguments: its own contract bounds where the scan ends; that the end is the matching `)` is stated by `Builder.ArgumentsEndAtMatchingClose`.
- Builder.CallThen: its own contract states the failure cases; the success case, with exactly one tree queued, is stated by `Builder.CallThenCalls` and `Builder.CalledQueues`, kept apart so that unfolding the function stays cheap.
- Builder.CloseThen: its own contract states the failure case; the success case, with the stack cut to the mark, is stated by `Builder.CloseThenCloses` and `Builder.Closed`.
- Builder.PlaceThen: an operator token with no entry at its position is `Crashed`. In Java a null operator meeting an operator stack crashes too, but when the stack is empty or the innermost open parenthesis shields it, the null operator is pushed and fails later as an unknown type of AST. The tokeniser types a token as an operator only when an entry at that position exists, so `parse` never reaches this case.
- ConstantFolding catches only evaluation exceptions. A runtime exception escaping an operation is modelled as a declined fold.
- Optimizer.Optimize: takes a fuel bound so that it is a total function for arbitrary passes. The source's loop need not end for passes that do not shrink trees. `Optimizer.OptimizeLoop` is the unbounded loop, proved to end for shrinking passes.
- Ast.UnboundReportIsGenuine: assumes that operations outside the model never report an unbound variable themselves. Such an operation sees only numbers, but in Java it could throw the same exception class.
- Passes.PowerRewritesSound: covers the power rewrites only for natural exponents, because general powers go to the oracle.
- Passes.SimplifySound: excludes the 0^x rewrite, which changes the value at x = 0 (`Passes.ZeroPowerChangesValue`). The library's tests expect that rewrite, so it is modelled as written. For power rewrites it also requires the exponent to evaluate to a natural number, because other powers go to the oracle.
- Expressions.ToString: states only a length bound and single-line tags. The text of leaves (number formatting) is a parameter, because Java's double-to-string conversion is not modelled. `Ast.RenderLines` gives the line structure.
- Expressions.SetVariables: the Java map's iteration order is abstracted away. Each key is set once, so the order does not change the result.
- Builtins.ArithmeticSeq and Builtins.GeometricSeq: the value of each term is stated through `Builtins.ArithmeticSeqTerms` and `Builtins.GeometricSeqTerms` rather than in the functions' own contracts.
- The `Expression` class's I/O-facing helpers, the calculator application, the examples and the parser's `get*`/`getAll*` listing methods are not modelled. The listing methods only sort names for display.
- The indicator's description says a < x < b, but the code tests a <= x <= b. The model follows the code.

## Findings

| source | as written | input that shows it | evidently intended | confidence | as-written member | corrected member |
|---|---|---|---|---|---|---|
| src/main/java/pl/mateuszchudyk/jmath/functions/GreatestCommonDivisor.java:48-52 | the domain loop reads the first argument at every index, so only that argument is checked; later arguments are floored and cast silently | gcd(4, 2.5) gives 2 and gcd(4, -6) gives -2 | every argument is checked and an error names the offending one | not executed | GcdLcm.GcdLaterArgumentsUnchecked | GcdLcm.GcdChecked |
| jmath/src/main/java/pl/mateuszchudyk/jmath/functions/LeastCommonMultiple.java:53-57 | the domain loop of lcm, like gcd's, reads the first argument at every index | lcm(4, 2.5) gives 5, which is not a multiple of 4 | every argument is checked and an error names the offending one | not executed | GcdLcm.LcmLaterArgumentsUnchecked | GcdLcm.LcmChecked |
| jmath/src/main/java/pl/mateuszchudyk/jmath/functions/LeastCommonMultiple.java:59-63 | lcm multiplies the arguments and divides by the gcd of all of them at once | lcm(2, 3, 4) gives 24 although 12 is a common multiple | the least common multiple, folding the two-argument lcm | not executed | GcdLcm.LcmOfThreeNotLeast | GcdLcm.LcmChecked |

The evaluator (`Ast.EvalOp`) runs `gcd` and `lcm` as written; the corrected members stand beside them.
