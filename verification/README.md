# HYBRID compiler / interpreter, modelled in Dafny

The system reads a small imperative language and offers two back ends.
The language has integer literals, variables, `+ - * /`, comparisons,
assignment, `if`/`else`, `while`, blocks and `print`.

- **Parser.** A recursive-descent parser (`Parser::ParserImpl`) builds an
  abstract syntax tree of `shared_ptr` nodes.
- **Optimizer.** `optimizeAST` folds constant arithmetic and removes dead
  `if` and `while` code.
- **Tree-walking interpreter.** `Interpreter::eval` evaluates the tree over
  a map of variables whose values are an `int` or a `bool`.
- **Compiler and stack machine.** `compileAST` translates the tree into a
  stack-machine IR with string labels, and `IRVM::run` executes that IR.

The project models each of these in the form the source has.

| file | module | what it models |
|---|---|---|
| base.dfy | `Base`, `MachineInt`, `Decimal` | outcomes and errors; C++ `int` arithmetic, with truncating `/` and overflow as an error; `std::to_string` and a strict decimal reader |
| ast.dfy | `Ast` | the node structs of parser.h, with every child pointer possibly null |
| values.dfy | `Values` | `Value` with `asInt` / `asBool` |
| grammar.dfy | `Grammar` | the parser as pure functions of the text and a cursor position |
| parser.dfy | `Parser` | class `ParserImpl` with its `input` and `pos` fields; each method is proved to agree with its Grammar function |
| grammar_properties.dfy | `GrammarProperties` | what the parser accepts and rejects: one step of each operator loop (left operand, right operand, left fold), raw keyword prefixes, blanks inside numbers and names, the `<=` and `==` pitfalls |
| grammar_locality.dfy | `GrammarLocality` | the parser reads nothing past a `}` it stops at, so text after an unmatched top-level `}` is ignored |
| optimizer.dfy | `Optimizer` | `optimizeAST`, as a specification function and as the recursive method with the source's block loop |
| optimizer_properties.dfy | `OptimizerProperties` | folding, dead-code removal, idempotence, size, and the fixpoints of the optimizer |
| semantics.dfy | `Semantics` | `eval` as functions of a tree and a state (variables and printed output) |
| interpreter.dfy | `TreeWalker` | class `Interpreter` with its `variables` map; each `eval*` method is proved to do what Semantics says |
| semantics_properties.dfy | `SemanticsProperties` | evaluation order, typing failures, `if`/`while`/block behaviour, purity of expressions, fuel monotonicity |
| ir.dfy | `Ir` | opcodes, instructions, `IRProgram`, `toInt` |
| compiler.dfy | `Compiler` | `compileAST`, as a function and as methods appending to an `IRProgram` |
| compiler_properties.dfy | `CompilerProperties` | compiled code is well labelled, so every jump lands on its own LABEL |
| vm.dfy | `Vm` | `IRVM::run`: the label pre-pass and the fetch–execute loop, as functions and as class `IRVM` |
| vm_properties.dfy | `VmProperties` | label resolution, the effect of each opcode, straight-line code, and the stack effect of compiled expressions |
| agreement.dfy | `Agreement` | where the interpreter gives an expression a value, the compiled code pushes the same number; where the two back ends differ |

Modelling choices that recur throughout:

- **Null children.** A null child is `None`. The optimizer can return null,
  and every back end handles it: `eval` throws "Unknown AST node", and
  `compileAST` emits nothing.
- **Exceptions.** A C++ exception is an error value. Where the source has
  already changed state before throwing, the error carries that state. For
  example, an assignment stores its value and then fails the `asInt` of its
  log line.
- **Undefined behaviour.** Behaviour that is undefined in C++ is an explicit
  error:
  - signed overflow of `int` arithmetic, in the optimizer, the interpreter
    and the VM, is `Overflow`;
  - a parsed literal beyond the `int` range is `LiteralOverflow`;
  - the VM popping an empty stack is `StackUnderflow`;
  - the interpreter or the VM dividing by 0 is `DivisionByZero`.
- **Loops.** Unbounded loops take a fuel bound. In the interpreter the
  bound limits the passes of each `while`; in the VM it limits the number
  of instructions executed.

## Model

| member | source | states |
|---|---|---|
| MachineInt.TDiv | ir.h:136 | C++ `/` truncates toward zero: the remainder is smaller than the divisor in magnitude and has the sign of the dividend |
| MachineInt.TruncatedRemainder | interpreter.cpp:27 | the remainder left by the truncated quotient is the remainder of the magnitudes, with the dividend's sign |
| MachineInt.Apply | ir.h:115-138 | `a o b` on `int`s fails with DivisionByZero exactly on a zero divisor, and with Overflow exactly when the exact result leaves the 32-bit range; otherwise it is the exact result |
| Decimal.NatToString | ir.h:207 | `to_string` of a natural is a non-empty digit string without a leading zero |
| Decimal.ParseDecimal | ir.h:63-65 | the reader accepts only a non-empty text |
| Decimal.NatToStringRoundTrip | ir.h:207 | reading the digits of `to_string(n)` gives back `n` |
| Decimal.NatToStringInjective | ir.h:213-214 | different counter values give different numerals, so label suffixes never collide |
| Decimal.IntToStringRoundTrip | ir.h:207 | `to_string` followed by the reader is the identity on integers |
| Values.AsInt | interpreter.h:13 | `asInt` succeeds exactly on an int-tagged value and returns its int; otherwise TypeMismatch |
| Values.AsBool | interpreter.h:14 | `asBool` succeeds exactly on a bool-tagged value and returns its bool; otherwise TypeMismatch |
| Ast.ArithOpOf | parsers.cpp:17-22 | an operator string names an arithmetic operator exactly when it is one of `+ - * /` |
| Grammar.SkipWs | parsers.cpp:84-86 | the cursor moves over white space only, and stops at the end or at a character that is not white space |
| Grammar.Peek | parsers.cpp:88-92 | `peek` moves the cursor forward only, never past the end |
| Grammar.Get | parsers.cpp:94-98 | `get` moves the cursor forward only, never past the end |
| Grammar.Match | parsers.cpp:100-108 | a successful `match(kw)` leaves the cursor just past `kw`, after the skipped blanks |
| Grammar.MatchFirst | parsers.cpp:183-186 | an operator the chain of `match` calls accepts is one of those tried, and the cursor is past it |
| Grammar.Expect | parsers.cpp:249-252 | a successful `expect(c)` of a real character consumes at least that character |
| Grammar.ParseProgram | parsers.cpp:75-78 | `parse` returns a Block of statements |
| Grammar.ParseStatements | parsers.cpp:110-116 | the loop returns statement trees only, and stops at the end of the input or at a `}` |
| Grammar.StatementsLoop | parsers.cpp:112-114 | each round adds a statement, and the loop ends at the end of the input or at a `}` |
| Grammar.ParseStatement | parsers.cpp:118-140 | a statement is a statement tree, and parsing it consumes input |
| Grammar.ParseExpressionStatement | parsers.cpp:137-139 | an expression statement yields an expression tree and consumes input |
| Grammar.ParseAssignment | parsers.cpp:142-148 | yields an Assignment node and consumes input |
| Grammar.ParenCondition | parsers.cpp:151-153 | a parenthesised condition is an expression tree |
| Grammar.ParseIf | parsers.cpp:150-160 | yields an IfStmt and consumes input |
| Grammar.ParseWhile | parsers.cpp:162-168 | yields a WhileStmt and consumes input |
| Grammar.ParseBlock | parsers.cpp:170-175 | yields a Block and consumes input |
| Grammar.ParsePrint | parsers.cpp:254-258 | yields a PrintStmt and consumes input |
| Grammar.ParseExpression | parsers.cpp:177-179 | an expression is an expression tree (literals, identifiers, binary operators) and consumes input |
| Grammar.ParseEquality | parsers.cpp:181-188 | yields an expression tree and consumes input |
| Grammar.EqualityLoop | parsers.cpp:183-187 | the loop only extends the expression tree |
| Grammar.ParseRelational | parsers.cpp:190-199 | yields an expression tree and consumes input |
| Grammar.LongerRelationalNeverMatches | parsers.cpp:193-196 | the `<=` and `>=` branches can never be taken, because `<` and `>` are tried first at the same position |
| Grammar.RelationalLoop | parsers.cpp:192-198 | the loop only extends the expression tree |
| Grammar.ParseAdditive | parsers.cpp:201-208 | yields an expression tree and consumes input |
| Grammar.AdditiveLoop | parsers.cpp:203-207 | the loop only extends the expression tree |
| Grammar.ParseTerm | parsers.cpp:210-217 | yields an expression tree and consumes input |
| Grammar.TermLoop | parsers.cpp:212-216 | the loop only extends the expression tree |
| Grammar.ParseFactor | parsers.cpp:219-235 | a factor is an expression tree and consumes input |
| Grammar.NumberLoop | parsers.cpp:220-223 | the digit loop yields a literal no smaller than the value so far, consuming input when a digit follows |
| Grammar.ParseIdentifier | parsers.cpp:237-247 | fails, with ExpectedIdentifier, exactly when the next non-blank character is not a letter or `_`; otherwise yields a non-empty name |
| Grammar.IdentifierLoop | parsers.cpp:242 | the name only grows |
| Parser.ParserImpl.constructor | parsers.cpp:73 | the cursor starts at the first character of the input |
| Parser.ParserImpl.Parse | parsers.cpp:75-78 | `parse` returns the tree Grammar.ParseProgram gives, with the cursor where it ends, or its error |
| Parser.ParserImpl.SkipWhitespace | parsers.cpp:84-86 | the cursor moves to Grammar.SkipWs of where it was |
| Parser.ParserImpl.PeekChar | parsers.cpp:88-92 | the character and cursor Grammar.Peek gives |
| Parser.ParserImpl.GetChar | parsers.cpp:94-98 | the character and cursor Grammar.Get gives |
| Parser.ParserImpl.MatchKeyword | parsers.cpp:100-108 | the answer and cursor Grammar.Match gives |
| Parser.ParserImpl.Expect | parsers.cpp:249-252 | succeeds or fails as Grammar.Expect does, with the same cursor |
| Parser.ParserImpl.ParseStatements | parsers.cpp:110-116 | the statements, cursor or error Grammar.ParseStatements gives |
| Parser.ParserImpl.ParseStatement | parsers.cpp:118-140 | the result of Grammar.ParseStatement, including the saved-position re-parse of an assignment |
| Parser.ParserImpl.ParseAssignment | parsers.cpp:142-148 | the result of Grammar.ParseAssignment |
| Parser.ParserImpl.ParseIf | parsers.cpp:150-160 | the result of Grammar.ParseIf |
| Parser.ParserImpl.ParseWhile | parsers.cpp:162-168 | the result of Grammar.ParseWhile |
| Parser.ParserImpl.ParseBlock | parsers.cpp:170-175 | the result of Grammar.ParseBlock |
| Parser.ParserImpl.ParsePrint | parsers.cpp:254-258 | the result of Grammar.ParsePrint |
| Parser.ParserImpl.ParseExpression | parsers.cpp:177-179 | the result of Grammar.ParseExpression |
| Parser.ParserImpl.ParseEquality | parsers.cpp:181-188 | the result of Grammar.ParseEquality, the loop proved against EqualityLoop |
| Parser.ParserImpl.ParseRelational | parsers.cpp:190-199 | the result of Grammar.ParseRelational, the loop proved against RelationalLoop |
| Parser.ParserImpl.ParseAdditive | parsers.cpp:201-208 | the result of Grammar.ParseAdditive, the loop proved against AdditiveLoop |
| Parser.ParserImpl.ParseTerm | parsers.cpp:210-217 | the result of Grammar.ParseTerm, the loop proved against TermLoop |
| Parser.ParserImpl.ParseFactor | parsers.cpp:219-235 | the result of Grammar.ParseFactor, the digit loop proved against NumberLoop |
| Parser.ParserImpl.ParseIdentifier | parsers.cpp:237-247 | the result of Grammar.ParseIdentifier, the loop proved against IdentifierLoop |
| GrammarProperties.BlankProgramIsEmpty | parsers.cpp:75-78 | text made only of white space parses to the empty Block |
| GrammarProperties.IfKeywordIsPrefix | parsers.cpp:118-119 | keywords have no word-boundary test: where the text starts with `if`, even `ifx`, the statement is read as an `if` |
| GrammarProperties.WhileKeywordIsPrefix | parsers.cpp:120 | where the text starts with `while`, even `whilex`, the statement is read as a `while`, entered just past the five letters |
| GrammarProperties.PrintKeywordIsPrefix | parsers.cpp:121 | where the text starts with `print`, even `printer`, the statement is read as a `print`, entered just past the five letters |
| GrammarProperties.AssignmentDispatch | parsers.cpp:123-129 | an identifier followed by `=` makes the statement an assignment, re-parsed from the saved position |
| GrammarProperties.SkipWsIdempotent | parsers.cpp:84-86 | skipping white space twice is skipping it once |
| GrammarProperties.NoOperatorMatches | parsers.cpp:100-108 | no operator matches when the next non-blank character does not begin any of them |
| GrammarProperties.TermLoopEnds | parsers.cpp:215 | the `*`/`/` loop returns the tree so far, past the blanks, when neither operator follows |
| GrammarProperties.RelationalLoopEnds | parsers.cpp:197 | the relational loop returns the tree so far when no operator follows |
| GrammarProperties.EqualityLoopEnds | parsers.cpp:186 | the equality loop returns the tree so far when no operator follows |
| GrammarProperties.TermOfFactor | parsers.cpp:210-217 | a factor not followed by `*` or `/` is a whole term |
| GrammarProperties.AdditiveOfTerm | parsers.cpp:201-208 | a term not followed by `+` or `-` is a whole additive expression |
| GrammarProperties.ExpressionOfAdditive | parsers.cpp:177-199 | an additive expression followed by no operator is a whole expression |
| GrammarProperties.ExpressionOfFactor | parsers.cpp:177-217 | a factor followed by no operator is a whole expression |
| GrammarProperties.FactorErrorIsAdditiveError | parsers.cpp:201-217 | a failing first factor makes the additive expression fail with the same error |
| GrammarProperties.FactorErrorIsExpressionError | parsers.cpp:177-217 | a failing first factor makes the whole expression fail with the same error |
| GrammarProperties.AdditiveAtEqualsFails | parsers.cpp:232-234 | no additive operand starts with `=`: it fails as an unexpected character in a factor |
| GrammarProperties.ExpressionAtEqualsFails | parsers.cpp:177-235 | no expression starts with `=` |
| GrammarProperties.RelationalOperatorBeforeEquals | parsers.cpp:193-196 | in front of `<=` or `>=` the loop matches the one-character `<` or `>` |
| GrammarProperties.LessEqualFails | parsers.cpp:190-196 | an operand followed by `<=` or `>=` makes the relational level fail, so `<=` and `>=` are never built |
| GrammarProperties.LessEqualLoopFails | parsers.cpp:192-198 | the relational loop fails in front of `<=` or `>=` |
| GrammarProperties.IfPrefixWithoutParenFails | parsers.cpp:118-119 | `ifx = 1;` fails with Expected '(' instead of assigning to `ifx` |
| GrammarProperties.AssignmentToEqualsFails | parsers.cpp:142-145 | an assignment whose `=` is followed by another `=` fails |
| GrammarProperties.AssignmentValueFails | parsers.cpp:142-145 | an assignment whose value does not parse fails with the value's error |
| GrammarProperties.ExpectAtCharacter | parsers.cpp:249-252 | `expect(c)` succeeds just past `c` when `c` is the next non-blank character |
| GrammarProperties.EqualityStatementFails | parsers.cpp:123-129 | the statement `x == 1;` is read as an assignment and fails at the second `=` |
| GrammarProperties.AdditiveStep | parsers.cpp:204-205 | the tree so far becomes the left operand, so `a-b-c` is `(a-b)-c` |
| GrammarProperties.AdditiveOperatorAt | parsers.cpp:204-205 | the additive operator matched is the next non-blank character |
| GrammarProperties.AdditiveLoopEnds | parsers.cpp:206 | the additive loop returns the tree so far when no `+` or `-` follows |
| GrammarProperties.TermStep | parsers.cpp:213-214 | the tree so far becomes the left operand of `*` or `/` and the next factor the right one, so `a/b*c` is `(a/b)*c` |
| GrammarProperties.TermOperatorAt | parsers.cpp:213-214 | the term operator matched is the next non-blank character |
| GrammarProperties.RelationalStep | parsers.cpp:193-194 | the right operand of `<` or `>` is a whole additive expression (`a<b+c` is `a<(b+c)`), and the tree so far is the left one |
| GrammarProperties.RelationalOperatorAt | parsers.cpp:193-194 | the relational operator matched is the next non-blank character alone, whatever follows it |
| GrammarProperties.EqualityStep | parsers.cpp:184-185 | the right operand of `==` or `!=` is a whole relational expression (`a==b<c` is `a==(b<c)`), and the tree so far is the left one |
| GrammarProperties.EqualityOperatorAt | parsers.cpp:184-185 | the equality operator matched is the next two non-blank characters |
| GrammarProperties.SplitNumberExample | parsers.cpp:220-223 | blanks between digits are skipped: `1 2` is the literal 12 |
| GrammarProperties.NumberLoopReads | parsers.cpp:222 | from the value `v` read so far, the loop reads every digit up to the first character that is neither a digit nor a blank, skipping the blanks, and yields `v` followed by those digits; LiteralOverflow exactly when that number is past the `int` range |
| GrammarProperties.NumberFactorReads | parsers.cpp:220-223 | a factor that starts with a digit is the number its digits spell, blanks between them skipped, or LiteralOverflow past the `int` range |
| GrammarProperties.IdentifierLoopReads | parsers.cpp:242 | the loop appends to the name every letter, digit and `_` up to the first other non-blank character, and leaves the blanks out |
| GrammarProperties.ParseIdentifierReads | parsers.cpp:237-247 | a name is the run of letters, digits, `_` and blanks from the first letter or `_`, with the blanks left out (`a b` is `ab`), and the cursor ends after the run |
| GrammarLocality.TextAfterBraceIgnored | parsers.cpp:110-116 | for any text whose top-level statements stop at an unmatched `}`, cutting the text after that `}` and appending any other text gives the same program |
| GrammarLocality.SkipWsShared | parsers.cpp:84-86 | skipping white space stops at a `}` at the latest, at the same place in any text that agrees up to it |
| GrammarLocality.PeekShared | parsers.cpp:88-92 | `peek` before the `}` is the same in both texts |
| GrammarLocality.GetShared | parsers.cpp:94-98 | `get` before the `}` is the same in both texts |
| GrammarLocality.MatchShared | parsers.cpp:100-108 | a keyword without `}` matches alike in both texts, and a match ends before the `}` |
| GrammarLocality.OperatorsHaveNoBrace | parsers.cpp:184-214 | no operator the expression levels try contains a `}` |
| GrammarLocality.MatchFirstShared | parsers.cpp:183-186 | a chain of operator matches gives the same answer in both texts |
| GrammarLocality.ExpectShared | parsers.cpp:249-252 | `expect` before the `}` is the same in both texts |
| GrammarLocality.NumberLoopShared | parsers.cpp:222 | the digit loop gives the same result in both texts and stops before the `}` |
| GrammarLocality.IdentifierLoopShared | parsers.cpp:242 | the name loop gives the same result in both texts and stops before the `}` |
| GrammarLocality.ParseIdentifierShared | parsers.cpp:237-247 | `parseIdentifier` gives the same result in both texts and stops before the `}` |
| GrammarLocality.ParseStatementsShared | parsers.cpp:110-116 | statements that end before the `}` parse alike in any text that agrees up to it |
| GrammarLocality.StatementsLoopShared | parsers.cpp:112-114 | the statement loop, likewise |
| GrammarLocality.ParseStatementShared | parsers.cpp:118-140 | a statement that ends before the `}` parses alike in both texts |
| GrammarLocality.ParseExpressionStatementShared | parsers.cpp:137-139 | an expression statement, likewise |
| GrammarLocality.ParseAssignmentShared | parsers.cpp:142-148 | an assignment, likewise |
| GrammarLocality.ParenConditionShared | parsers.cpp:151-153 | a parenthesised condition, likewise |
| GrammarLocality.ParseIfShared | parsers.cpp:150-160 | an `if`, with or without `else`, likewise |
| GrammarLocality.ParseWhileShared | parsers.cpp:162-168 | a `while`, likewise |
| GrammarLocality.ParseBlockShared | parsers.cpp:170-175 | a nested block, likewise |
| GrammarLocality.ParsePrintShared | parsers.cpp:254-258 | a `print`, likewise |
| GrammarLocality.ParseExpressionShared | parsers.cpp:177-179 | an expression, likewise |
| GrammarLocality.ParseEqualityShared | parsers.cpp:181-188 | the equality level, likewise |
| GrammarLocality.EqualityLoopShared | parsers.cpp:183-187 | the equality loop, likewise |
| GrammarLocality.ParseRelationalShared | parsers.cpp:190-199 | the relational level, likewise |
| GrammarLocality.RelationalLoopShared | parsers.cpp:192-198 | the relational loop, likewise |
| GrammarLocality.ParseAdditiveShared | parsers.cpp:201-208 | the additive level, likewise |
| GrammarLocality.AdditiveLoopShared | parsers.cpp:203-207 | the additive loop, likewise |
| GrammarLocality.ParseTermShared | parsers.cpp:210-217 | the term level, likewise |
| GrammarLocality.TermLoopShared | parsers.cpp:212-216 | the term loop, likewise |
| GrammarLocality.ParseFactorShared | parsers.cpp:219-235 | a factor, likewise |
| GrammarProperties.UnclosedBlockFails | parsers.cpp:170-175 | a block whose statements run to the end of the input fails on the missing `}` |
| Optimizer.Fold | parsers.cpp:14-25 | over two literals, a non-arithmetic operator is rebuilt; an arithmetic one fails exactly on a zero divisor, or on overflow, and otherwise yields a literal holding the exact result |
| Optimizer.OptimizeStatements | parsers.cpp:54-61 | the optimized block never has more statements than the original |
| Optimizer.FirstFailureDecides | parsers.cpp:56-59 | once a prefix of the statements fails, the later statements do not change the result |
| Optimizer.OptimizeAST | parsers.cpp:7-68 | the recursive method, with the source's loop over a block, returns what the specification function Optimize returns |
| OptimizerProperties.FoldsArithmetic | parsers.cpp:10-25 | `+ - * /` over operands that optimize to literals become one literal holding the 32-bit result |
| OptimizerProperties.FoldedDivisionByZeroFails | parsers.cpp:21 | folding a division by the literal 0 fails |
| OptimizerProperties.RebuildsUnfolded | parsers.cpp:23-27 | comparisons over literals, and any operator over a non-literal operand, are rebuilt over the optimized operands |
| OptimizerProperties.LiteralIfSelectsBranch | parsers.cpp:35-43 | an `if` with a literal condition becomes its then-branch when the literal is nonzero, and otherwise its else-branch, which may be null |
| OptimizerProperties.FalseWhileRemoved | parsers.cpp:48-49 | a `while` whose condition optimizes to 0 becomes null |
| OptimizerProperties.OtherWhileKept | parsers.cpp:45-52 | every other `while` is kept, with its condition and body optimized |
| OptimizerProperties.DiscardedChildrenStillFail | parsers.cpp:36-47 | a failing child makes the `if` or `while` fail, even a branch that is then discarded |
| OptimizerProperties.DeadBranchDivisionFails | parsers.cpp:35-43 | `if (0) print 1/0;` fails rather than disappearing |
| OptimizerProperties.AbsentElseIsNotEmptyBlock | parsers.cpp:38-40 | `if (0)` yields null without an else and the empty block with an empty else |
| OptimizerProperties.BlockKeepsNonNull | parsers.cpp:54-61 | a block whose statements all optimize holds exactly the non-null optimized statements, in order |
| OptimizerProperties.BlockFailsAtFirstFailure | parsers.cpp:56-57 | a block fails with the error of its first failing statement |
| OptimizerProperties.OptimizeYieldsOptimized | parsers.cpp:7-68 | the optimizer's output has nothing left to fold, no literal `if` or `while (0)`, and no null block statement |
| OptimizerProperties.OptimizedIsFixpoint | parsers.cpp:7-68 | the optimizer leaves such a tree unchanged |
| OptimizerProperties.Idempotent | parsers.cpp:7-68 | optimizing the optimizer's output changes nothing |
| OptimizerProperties.OptimizeNeverGrows | parsers.cpp:7-68 | the optimizer never makes a tree larger |
| OptimizerProperties.FixedStatements | parsers.cpp:54-61 | a block left unchanged has no null statement, and each statement is itself left unchanged |
| OptimizerProperties.FixpointsAreOptimized | parsers.cpp:7-68 | the trees the optimizer leaves unchanged are exactly the optimized ones |
| Semantics.BinaryOp | interpreter.cpp:24-31 | an unknown operator fails; a bool operand fails; `+ - * /` give the `int` result or its error; `== < >` give the bool of the comparison |
| Semantics.Eval | interpreter.cpp:8-18 | evaluation only appends to the output and never removes a variable |
| Semantics.EvalBinary | interpreter.cpp:20-32 | evaluating a binary expression only appends output and never removes a variable |
| Semantics.EvalIf | interpreter.cpp:52-65 | an `if` only appends output and never removes a variable |
| Semantics.EvalStatements | interpreter.cpp:67-81 | a block only appends output and never removes a variable |
| Semantics.Loop | interpreter.cpp:83-96 | a `while` only appends output and never removes a variable |
| TreeWalker.Interpreter.constructor | interpreter.cpp:6 | a fresh interpreter has no variables and has printed nothing |
| TreeWalker.Interpreter.Eval | interpreter.cpp:8-18 | the value, error and new variables are those Semantics.Eval gives |
| TreeWalker.Interpreter.EvalBinaryExpr | interpreter.cpp:20-32 | agrees with Semantics.Eval on the binary node |
| TreeWalker.Interpreter.EvalLiteral | interpreter.cpp:34-36 | a literal is its int |
| TreeWalker.Interpreter.EvalIdentifier | interpreter.cpp:38-42 | succeeds exactly when the name is bound, with its value; otherwise UndefinedVariable |
| TreeWalker.Interpreter.EvalAssignment | interpreter.cpp:44-50 | agrees with Semantics.Eval on the assignment, including the store before a failing `asInt` |
| TreeWalker.Interpreter.EvalIfStmt | interpreter.cpp:52-65 | agrees with Semantics.Eval on the `if` |
| TreeWalker.Interpreter.EvalBlock | interpreter.cpp:67-81 | agrees with Semantics.Eval on the block, the loop proved against EvalStatements |
| TreeWalker.Interpreter.EvalWhileStmt | interpreter.cpp:83-96 | agrees with Semantics.Eval on the `while`, the loop proved against Loop |
| TreeWalker.Interpreter.EvalPrintStmt | interpreter.cpp:98-102 | agrees with Semantics.Eval on `print` |
| SemanticsProperties.Leaves | interpreter.cpp:34-42 | a literal is its int; a bound name is its value; an unbound name and a null node fail |
| SemanticsProperties.LeftOperandFirst | interpreter.cpp:21-22 | the left operand is evaluated first, and its failure is the failure of the whole |
| SemanticsProperties.UnknownOperatorFails | interpreter.cpp:31 | an operator such as `!=` fails once both operands are evaluated |
| SemanticsProperties.BoolOperandFails | interpreter.cpp:24-30 | a bool operand makes every supported operator fail |
| SemanticsProperties.ComparisonPlusOneFails | interpreter.cpp:24-29 | `(a < b) + 1` fails even over bound ints |
| SemanticsProperties.AssignmentStores | interpreter.cpp:44-50 | an assignment stores its value and yields it; a bool is stored and then fails |
| SemanticsProperties.IntConditionFails | interpreter.cpp:52-55 | an int condition fails both the `if` and the `while` |
| SemanticsProperties.IfSelects | interpreter.cpp:55-64 | a true condition runs the then-branch; a false one runs the else-branch, or yields the int 0 when there is none |
| SemanticsProperties.NothingRunYieldsZero | interpreter.cpp:67-96 | an empty block, and a loop whose condition is false at once, yield the int 0 |
| SemanticsProperties.PrintAppends | interpreter.cpp:98-102 | `print` appends its int to the output and yields it; a bool fails with nothing printed |
| SemanticsProperties.BlockAppend | interpreter.cpp:67-81 | running `ss + [x]` is running `ss`, then `x`, then the int check of every variable |
| SemanticsProperties.BoolVariableFailsBlock | interpreter.cpp:73-76 | a block fails after a statement that leaves a bool variable behind |
| SemanticsProperties.ExpressionsArePure | interpreter.cpp:20-42 | an expression the parser builds changes no variable and prints nothing |
| SemanticsProperties.DoneKeepsInts | interpreter.cpp:44-50 | a successful run from all-int variables ends with all-int variables |
| SemanticsProperties.FreshRunNeverFailsCheck | interpreter.cpp:73-76 | in a fresh interpreter the int check after a statement never fails on its own |
| SemanticsProperties.LoopEndsOnFalse | interpreter.cpp:86 | a finished loop over a parser-built condition ends in a state where its condition is false |
| SemanticsProperties.FuelMonotone | interpreter.cpp:83-96 | more fuel never changes the result of an evaluation that finished |
| Ir.IRProgram.constructor | ir.h:34-36 | a new program has no instructions |
| Ir.ToInt | ir.h:63-65 | succeeds exactly on a decimal numeral within the `int` range, with its value; otherwise BadPushArgument |
| Ir.ToIntRoundTrip | ir.h:207 | the PUSH argument the compiler writes reads back as the literal |
| Compiler.OperatorCode | ir.h:199-205 | exactly `+ - * / > < ==` get one binary opcode; any other operator gets none |
| Compiler.Compile | ir.h:188-243 | compiling a tree advances the label counter by two for each `if` and `while` in it |
| Compiler.IfCode | ir.h:212-225 | an `if` advances the counter by two plus what its parts take |
| Compiler.WhileCode | ir.h:226-237 | a `while` advances the counter by two plus what its parts take |
| Compiler.CompileAll | ir.h:190-191 | a block advances the counter by two for each control statement in it |
| Compiler.CompileAllStep | ir.h:191 | one more statement's code follows the code of the statements before it |
| Compiler.CompileAST | ir.h:188-243 | appends exactly Compile's code to `ir.instructions` and returns its label counter |
| Compiler.CompileBlock | ir.h:190-191 | appends the block's code and returns its label counter |
| Compiler.CompileIf | ir.h:212-225 | appends the `if` layout and returns its label counter |
| Compiler.CompileWhile | ir.h:226-237 | appends the `while` layout and returns its label counter |
| CompilerProperties.DefinedMeans | ir.h:221-237 | a name is defined exactly when some LABEL instruction carries it |
| CompilerProperties.UsedHasTargets | ir.h:216-235 | every JZ and JMP target is among the used names |
| CompilerProperties.UniqueMeansDistinct | ir.h:221-237 | in code without a repeated label, a LABEL is the only one of its name |
| CompilerProperties.NamesNumber | ir.h:213-228 | every generated name is a prefix with a counter value from the range |
| CompilerProperties.CompiledLabels | ir.h:188-243 | compiled code defines only labels numbered from the counters it took, defines every label it jumps to, and never defines a label twice |
| CompilerProperties.JumpsLand | ir.h:74-79 | in a compiled program every JZ and JMP names a label that `run` maps to the one LABEL of that name |
| Vm.Combine | ir.h:115-156 | ADD to DIV are the `int` arithmetic with its errors; GT, LT and EQ push 1 or 0 |
| Vm.Exec | ir.h:82-181 | a run that ends has `ip` past the last instruction |
| Vm.IRVM.Run | ir.h:73-186 | the label pre-pass and the fetch–execute loop compute RunProgram |
| Vm.IRVM.Execute | ir.h:103-175 | one pass of the loop body is Step |
| VmProperties.LabelsResolve | ir.h:74-79 | the pre-pass maps exactly the names of LABEL instructions, each to a LABEL of that name with no later one: the last occurrence wins |
| VmProperties.UniqueLabelResolves | ir.h:74-79 | a label that occurs once resolves to its position |
| VmProperties.JumpResumesAfterLabel | ir.h:164-166 | after a jump to a mapped label, the instruction after that LABEL runs next |
| VmProperties.UnknownLabelResumesAtOne | ir.h:160 | a jump to an unmapped label goes to index 0, so index 1 runs next |
| VmProperties.JumpsPop | ir.h:157-166 | JZ pops and jumps on 0; JMP pops nothing and always jumps |
| VmProperties.BinaryPopsRightFirst | ir.h:115-156 | a binary opcode pops the right operand, then the left, and pushes their result |
| VmProperties.UnderflowExactly | ir.h:110-171 | an instruction fails with StackUnderflow exactly when the stack holds fewer values than it pops |
| VmProperties.VariablesAndPrint | ir.h:107-174 | LOAD of an unset variable pushes 0 and binds it; STORE pops into the variable; PRINT pops and emits |
| VmProperties.MarkersOnlyAdvance | ir.h:167-169 | LABEL and NOP change nothing but `ip` |
| VmProperties.HaltsPastEnd | ir.h:82 | the run stops exactly when `ip` is past the last instruction |
| VmProperties.StraightAppend | ir.h:82-181 | running jump-free code `a + b` is running `a`, then `b` |
| VmProperties.StraightInProgram | ir.h:82-181 | jump-free code placed in a program runs there as it runs alone, and the run goes on from where it ends |
| VmProperties.StraightAdvances | ir.h:82-181 | jump-free code that does not fail ends just past its last instruction |
| VmProperties.VmValue | ir.h:115-156 | an expression's machine value can fail only with Overflow or DivisionByZero |
| VmProperties.ValueAfterLoads | ir.h:107-109 | the zero bindings LOAD makes never change what an expression computes |
| VmProperties.CompiledExpression | ir.h:196-211 | the compiler emits ExprCode for an expression and takes no label number for it |
| VmProperties.ExpressionCodeHasNoJumps | ir.h:196-211 | an expression's code holds no jump |
| VmProperties.ExpressionPushesItsValue | ir.h:196-211 | an expression's code pushes exactly its value and leaves the rest of the stack alone; it never underflows and fails only where its arithmetic does |
| Agreement.OperatorAgrees | ir.h:199-205 | the opcode for an operator, on encoded operands, yields the encoding of the interpreter's result |
| Agreement.EvaluationAgrees | interpreter.cpp:8-42 | on a compilable expression, a value the interpreter yields is the number the compiled code pushes over mirrored variables, and the interpreter's state is unchanged |
| Agreement.CompiledExpressionAgrees | interpreter.cpp:8-42 | where `eval` gives an expression a value, the code `compileAST` emits for it, placed anywhere in a program with `ip` at its start, runs one instruction per step to just past its end, with that value, encoded, pushed on the stack |
| Agreement.CompiledCodeRuns | ir.h:196-211 | the compiled code of an expression of machine value `v`, placed at `ip`, runs to just past its end with `v` pushed and the rest of the stack untouched |
| Agreement.ExpressionCodeRuns | ir.h:82-83 | the same for the code an expression compiles to, run inside the main loop of `IRVM::run` |
| Agreement.MachineIgnoresTypes | ir.h:115-156 | for `(1<2)+1` the interpreter fails with a type mismatch while the machine computes 2 |
| Agreement.MachineReadsUnsetAsZero | ir.h:107-109 | an unset variable fails in the interpreter and reads as 0 in the machine |

## Left out

- The lexer (lexer.h, lexer.cpp) and the driver in main.cpp are not part of this model. They are not used by the modelled code.
- `printTree`, `printIR`, the VM's per-step trace and final variable dump, and the `[Interpreter]` / `[Compiler]` log lines are console output only, and are left out. The output that `print` statements produce is kept, as a sequence of values.
- The failing `asInt()` in the interpreter's variable-state log lines is kept, because it changes behaviour. It is the check that every variable is an int.
- Ir.ToInt: `std::stoi` also accepts leading blanks, a `+` sign and trailing text. The model reads strict decimal numerals only. The compiler only writes `to_string` output, which both readers accept alike (Ir.ToIntRoundTrip).
- Semantics.Eval: the fuel bound on the passes of each `while` cuts off non-terminating runs with OutOfFuel. C++ would loop forever. SemanticsProperties.FuelMonotone shows that the bound never changes a finished result.
- Vm.Exec: the fuel bound on executed instructions cuts off non-terminating runs with OutOfFuel.
- Compiler.Compile: `labelCount` is a C++ `int`. Its overflow after 2^31 labels is not modelled; the counter is a natural number.
- Vm.Step: a VM error ends the run without the machine state, since popping an empty stack, overflow and division by zero are undefined behaviour in C++.
- Vm.Target: `labels[name]` for a missing name also inserts that name with index 0. The insertion is not modelled, because every later lookup of that name reads 0 either way.
- Vm.IRVM.Run: the `switch` on the opcode is split off into the method Execute. The stack and the variables are values (`seq`, `map`) that the loop reassigns, not vectors updated in place.
- Compiler.CompileAST: the `if` and `while` cases and the block loop are split off into the methods CompileIf, CompileWhile and CompileBlock. `labelCount`, passed by reference in C++, is an in-parameter plus a returned counter.
- Grammar.ParseEquality: its own contract says only that the result is an expression tree and that input is consumed. How `==` and `!=` combine operands is stated by GrammarProperties.EqualityStep and EqualityLoopEnds.
- Grammar.ParseRelational: the same; the operands of `<` and `>` are stated by GrammarProperties.RelationalStep and RelationalLoopEnds, and the `<=`/`>=` failure by LessEqualFails.
- Grammar.ParseAdditive: the same; see GrammarProperties.AdditiveStep and AdditiveLoopEnds.
- Grammar.ParseTerm: the same; see GrammarProperties.TermStep and TermLoopEnds.
- Grammar.NumberLoop: its own contract gives only a lower bound on the literal. The value read, and exactly when it overflows, is stated by GrammarProperties.NumberLoopReads.
- Grammar.IdentifierLoop: its own contract says only that the name grows. The name read is stated by GrammarProperties.IdentifierLoopReads.
- Agreement.EvaluationAgrees: the agreement holds in one direction only. The machine has no types and reads an unset variable as 0, so a machine value does not imply an interpreter value (MachineIgnoresTypes, MachineReadsUnsetAsZero). Statements are not related across the two back ends.
- Characters outside ASCII are classified as the C locale does: they are neither letters, digits nor white space.
