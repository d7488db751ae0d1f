# Bash core: a Dafny model

A model of six parts of the Bash shell kept in `legacy-os/ports/bash`, with proofs of what they promise.

- **Arithmetic** (`expr.c`): the recursive-descent evaluator as a class whose fields are the parser's globals and
  its context stack, the 64-bit arithmetic, and the reader of numeric constants. The central theorem
  (`Faithful.TextMeans`) says that any text that spells an expression tree, with any white space and any parentheses
  beyond those that precedence asks for, evaluates to the tree's denotation: value, error and the exact final store.
  Constants may be any text, good or bad, and variables may hold anything: only an evaluation that comes to read a
  text of which nothing is known has no stated outcome. `Grammar.GrammarMeans` says the same of the grammar written out
  phrase by phrase, with precedence as a plain list, and `Mistakes` says which error a text gives that is no expression.
- **Commands** (`execute_cmd.c`, `copy_cmd.c`, `builtins/break.def`): the executor as a class that sets
  `CMD_IGNORE_RETURN` bits in place and counts `breaking`, `continuing` and `loop_level`. It is proved to behave
  like a semantics without bits and counters (`Shell.Shell.Execute` against `Commands.Run`), over every run, with
  loop bodies re-run under old bits and functions run on copies. `Surroundings` and `Completion` say what that
  semantics makes of `break`, `continue`, errexit and normal ends, through any nesting.
- **Indexed arrays** (`array.c`, `array2.c`, `arrayfunc.c`): the circular list with its roving pointer, the flat
  table, the equivalence of the two on every run, compound assignment as a fold, and the print-and-assign circle.
- **Brace expansion** (`braces.c`): the scanner, the expander, sequence expressions, and the theorem that expanding a
  printed pattern gives its left-to-right product.
- **Brace completion** (`bracecomp.c`): names folded into one brace text; expanding it gives the names back.
- **Aliases** (`alias.c`): expanding a line rewrites a tiling of it, and replaces words as the line's words and gaps say.

`dafny verify dfyconfig.toml` checks everything.

## How the files fit together

| files | content |
|---|---|
| `Options`, `Strings`, `Int64`, `Numerals`, `Tokens`, `Operators` | optional values, positions in texts, 64-bit arithmetic, constants, tokens, operators |
| `Ladder`, `Evaluator` | the evaluator as total functions, and as the class that computes them |
| `Expressions`, `Reading`, `Faithful` | trees, their meaning and spelling; the faithfulness proof |
| `ExprLaws`, `Grammar`, `Mistakes` | laws, the written-out grammar, and errors |
| `Commands`, `Marks`, `Shell`, `CommandLaws` | meaning of commands, flag bits, the executor, laws |
| `Surroundings`, `Completion` | commands inside other commands: exits, errexit, normal ends |
| `Entries`, `LinkedArray`, `FlatArray`, `ArrayRuns`, `Compound` | arrays |
| `Sequences`, `SeqTerms`, `Braces`, `BracePatterns`, `BraceNames` | braces |
| `Aliases`, `AliasWords` | aliases |

Strings are sequences of bytes without NUL. Integers are unbounded and truncated to 64 bits where the source
computes in `intmax_t`. A null value of an array element is `None`.

## Where the code differs from what one expects

- A skipped operand can still fail: a malformed constant and a negative exponent are reported under `noeval`
  (`ExprLaws.SkippedCanFail`).
  `ExprLaws.SkippedIsInert`, `ExprLaws.ShortCircuit` and `ExprLaws.UnselectedArm` say exactly when.
- `until continue; do ...; done` leaves the loop (`CommandLaws.UntilContinue`). `Surroundings.ContinueInTest` says
  when a `continue` in a test resumes the loop, and `Surroundings.StatusParity` reads the condition off the text.
- `continue` with a count below one breaks out of every loop (`Surroundings.ContinueZero`);
  `Surroundings.ContinueBreaks` gives the exact condition.
- The checks of a sequence pass for 0 and the least integer, where 64-bit arithmetic miscounts
  (`Sequences.TooFewSlots`); `Sequences.StepsExact` and `Sequences.RoomExactly` give the exact condition.
- A padded element of a sequence goes through an `int`, so it reads back as itself if and only if it fits one
  (`SeqTerms.PaddedReadsBack`).
- `0x` alone is 0 where `16#` alone is an error (`Numerals.PrefixForms`).
- `array_insert` of the flat table reports a new element as -1; the list reports 0 for every insertion.

## Model

| member | source | states |
|---|---|---|
| Int64.Ipow | legacy-os/ports/bash/expr.c:943-958 | square-and-multiply gives base^exponent modulo 2^64, for every base and non-negative exponent |
| Int64.TruncDivMod | legacy-os/ports/bash/expr.c:882-941 | C division: quotient times divisor plus remainder is the dividend, and the remainder is smaller and has the dividend's sign |
| Numerals.ReadConstant | legacy-os/ports/bash/expr.c:1545-1631 | the `strlong` loop computes the recursive reading of a constant, errors included |
| Numerals.BaseNotation | legacy-os/ports/bash/expr.c:1545-1631 | `base#digits` reads as v for every base 2..64 and every v, wrapped at 2^64 |
| Numerals.DecimalNotation | legacy-os/ports/bash/expr.c:1545-1631 | decimal text of v reads as v |
| Numerals.CaseIrrelevant | legacy-os/ports/bash/expr.c:1545-1631 | a whole constant reads the same in either case of its letters, good or bad, unless it names a base above 36 |
| Numerals.PrefixForms | legacy-os/ports/bash/expr.c:1545-1577 | on every tail, `0x` means `16#` and a leading `0` means `8#`, errors included, if and only if a digit character comes first in it |
| Numerals.BaseChecked | legacy-os/ports/bash/expr.c:1583-1603 | a base is taken modulo 2^64 and is an error unless it then lies between 2 and 64; nothing behind `#` is another |
| Numerals.DigitChecked | legacy-os/ports/bash/expr.c:1584-1617 | wherever it stands, a digit too great for the base is an error, and so is a second `#` |
| Numerals.DigitsListed | legacy-os/ports/bash/expr.c:1604-1613 | the values of the 64 digits, and of both cases up to base 36 |
| Tokens.NextToken | legacy-os/ports/bash/expr.c:1310-1515 | the character scan of `readtok` computes the token function: longest operator, name, constant, or error |
| Operators.BitwiseAt | legacy-os/ports/bash/expr.c:727-781 | the three bitwise operators act on each of the 64 two's-complement bits |
| Operators.ShiftAt | legacy-os/ports/bash/expr.c:836-857 | `<<` moves the 64 bits up and fills with zeros, `>>` moves them down and fills with the sign |
| Ladder.ReadTok | legacy-os/ports/bash/expr.c:1310-1515 | a token read keeps text, depth and `noeval`, moves only forward, and while `noeval` is positive changes no variable |
| Ladder.Lookup | legacy-os/ports/bash/expr.c:1140-1246 | a variable's value is in range; under `noeval` nothing is read and the store stays |
| Ladder.SubExpr | legacy-os/ports/bash/expr.c:450-487 | evaluation ends for every text, store and depth, with a 64-bit value or an error; the measure is (1024 - depth, input left) |
| Ladder.ExpComma | legacy-os/ports/bash/expr.c:489-502 | returns with `noeval`, text and depth as found; while `noeval` is positive the store stays and no division by zero or recursion error occurs |
| Ladder.ExpAssign | legacy-os/ports/bash/expr.c:504-620 | the same for assignments |
| Ladder.ExpCond | legacy-os/ports/bash/expr.c:623-668 | the same for `?:`, whose two arms raise and lower `noeval` |
| Ladder.ExpBinary | legacy-os/ports/bash/expr.c:671-941 | the same for the ten left-associative rungs, whose `&&` and `\|\|` raise and lower `noeval` |
| Ladder.ExpPower | legacy-os/ports/bash/expr.c:960-978 | the same for `**` |
| Ladder.Exp1 | legacy-os/ports/bash/expr.c:980-1013 | the same for the unary operators |
| Ladder.Exp0 | legacy-os/ports/bash/expr.c:1015-1112 | the same for operands, with at least one token consumed |
| Evaluator.Evaluator.PushExp | legacy-os/ports/bash/expr.c:257-277 | saves every field on the stack, or reports recursion at 1024 |
| Evaluator.Evaluator.PopExp | legacy-os/ports/bash/expr.c:281-300 | restores every saved field, or reports underflow |
| Evaluator.Evaluator.ReadTok | legacy-os/ports/bash/expr.c:1310-1515 | reads a token in place as `Ladder.ReadTok` says, with the look-ahead after a name undone |
| Evaluator.Evaluator.Lookup | legacy-os/ports/bash/expr.c:1140-1246 | evaluates a variable's text as an expression, by recursion through `subexpr` |
| Evaluator.Evaluator.SubExpr | legacy-os/ports/bash/expr.c:450-487 | has the value or error of `Ladder.SubExpr`, and on success the caller's whole parser state is back |
| Evaluator.Evaluator.EvalExp | legacy-os/ports/bash/expr.c:405-448 | value and validity; after an error the stack is empty and the store is what the evaluation left |
| Evaluator.Evaluator.ExpComma | legacy-os/ports/bash/expr.c:489-502 | the loop refines its function and leaves the stack alone |
| Evaluator.Evaluator.ExpAssign | legacy-os/ports/bash/expr.c:504-620 | refines its function |
| Evaluator.Evaluator.ExpCond | legacy-os/ports/bash/expr.c:623-668 | refines its function |
| Evaluator.Evaluator.ExpBinary | legacy-os/ports/bash/expr.c:671-941 | the loops of the ten rungs refine their function |
| Evaluator.Evaluator.ExpPower | legacy-os/ports/bash/expr.c:960-978 | refines its function |
| Evaluator.Evaluator.Exp1 | legacy-os/ports/bash/expr.c:980-1013 | refines its function |
| Evaluator.Evaluator.Exp0 | legacy-os/ports/bash/expr.c:1015-1112 | refines its function |
| Evaluator.Evaluator.NameOperand | legacy-os/ports/bash/expr.c:1063-1106 | refines its function, with the saved and restored look-ahead of postfix `++` and `--` |
| Faithful.Parse | legacy-os/ports/bash/expr.c:489-1112 | a tree printed for any rung gets its denotation from that rung: precedence, associativity, effect order, skipping and bad constants, in any store, unless a text of which nothing is known is read |
| Faithful.TextMeans | legacy-os/ports/bash/expr.c:450-1246 | every text that spells a tree, redundant parentheses included, evaluates to its meaning one level deeper, with exactly the store the meaning leaves, or to the recursion error at depth 1024; variables that are skipped, overwritten first or not mentioned may hold anything |
| Faithful.AnyStore | legacy-os/ports/bash/expr.c:1140-1246 | every store is that of an environment that knows nothing of its texts |
| ExprLaws.ReadableIsClear | legacy-os/ports/bash/expr.c:1140-1246 | where every name in reach is known, unset or blank, no evaluation meets an unknown text, and that stays so |
| ExprLaws.PrintedTree | legacy-os/ports/bash/expr.c:405-1112 | the text of every tree, with no parentheses beyond its own and those needed, evaluates to exactly the tree's meaning, unless an unknown text is read |
| ExprLaws.RedundantParens | legacy-os/ports/bash/expr.c:1051-1065 | texts that spell the same tree up to redundant parentheses give equal answers and equal stores |
| Grammar.GrammarMeans | legacy-os/ports/bash/expr.c:24-45 | every text of the grammar evaluates to the meaning of its tree: unary operators, then binary ones by the eleven levels of the list, from the left but for `**`, then `?:`, then assignments from the right, then commas |
| Grammar.TwoOperators | legacy-os/ports/bash/expr.c:24-45 | of two operators the tighter takes its operands first, of two alike the left one, of two `**` the right one |
| Grammar.LogicalSymbols | legacy-os/ports/bash/expr.c:1398-1500 | what `\|\|`, `&&`, `\|`, `^` and `&` do to 7 and 2, in any store |
| Grammar.ComparingSymbols | legacy-os/ports/bash/expr.c:1398-1500 | what the six comparisons do to 7 and 2 |
| Grammar.ArithmeticSymbols | legacy-os/ports/bash/expr.c:1398-1500 | what `+`, `-`, `*`, `/` and `%` do to 7 and 2 |
| Grammar.PowerSymbols | legacy-os/ports/bash/expr.c:1398-1500 | what `<<`, `>>` and `**` do to 7 and 2 |
| Grammar.UnarySymbols | legacy-os/ports/bash/expr.c:982-1013 | what `!`, `~`, `-` and `+` do to 7 |
| Grammar.QuestionSymbol | legacy-os/ports/bash/expr.c:623-668 | `7 ? 2 : 7` is 2 |
| Grammar.CommaSymbol | legacy-os/ports/bash/expr.c:485-535 | `7 , 2` is 2, and `x = 7` is 7 and sets x to `7` |
| Mistakes.UnclosedParen | legacy-os/ports/bash/expr.c:1051-1058 | an expression behind `(` and nothing to close it: the expression is evaluated, then the missing parenthesis is the error |
| Mistakes.EmptyParen | legacy-os/ports/bash/expr.c:1051-1109 | `( )`, or another symbol where the operand is due, is an error and changes nothing |
| Mistakes.UnaryAlone | legacy-os/ports/bash/expr.c:982-1109 | a unary operator with no operand is an error |
| Mistakes.OperatorLast | legacy-os/ports/bash/expr.c:671-941 | a binary operator with no right operand: the left one is evaluated, then the missing operand is the error |
| Mistakes.NoColon | legacy-os/ports/bash/expr.c:633-649 | `c ? a` without a colon: both are evaluated in their turn, then the missing colon is the error |
| Mistakes.NoThen | legacy-os/ports/bash/expr.c:633-642 | `c ?` with nothing before the colon is an error after c |
| Mistakes.NoElse | legacy-os/ports/bash/expr.c:650-660 | `c ? a :` with nothing behind the colon is an error after a |
| Mistakes.TrailingSymbol | legacy-os/ports/bash/expr.c:474-480 | a `)` or `:` behind a whole expression: it is evaluated, then the rest is the error |
| Mistakes.AssignToNumber | legacy-os/ports/bash/expr.c:516-525 | a number is no target of an assignment, unless it is no number either |
| Mistakes.AssignToParen | legacy-os/ports/bash/expr.c:516-525 | nor is anything in parentheses, even a name |
| Mistakes.SteppedTwice | legacy-os/ports/bash/expr.c:1452-1466 | `++x++` is an error, and x has been stepped once by then |
| Mistakes.StrayFirst | legacy-os/ports/bash/expr.c:1495-1503 | a character of no token, where an operand is due, is an error of that kind |
| Mistakes.StrayBehind | legacy-os/ports/bash/expr.c:1495-1503 | behind a number it is an error of another kind |
| ExprLaws.OthersUnchanged | legacy-os/ports/bash/expr.c:321-341 | outside a set of names closed under reading, every shell variable keeps its text |
| ExprLaws.UpdateIsSet | legacy-os/ports/bash/expr.c:504-620 | `x OP= e` and `x = x OP (e)` agree in value, variables and errors for all ten operators, evaluated or skipped |
| ExprLaws.UpdateTexts | legacy-os/ports/bash/expr.c:504-620 | any two texts that spell the two forms give equal answers and equal stores |
| ExprLaws.SkippedIsInert | legacy-os/ports/bash/expr.c:905-978 | a skipped tree reads and writes no variable, has the value with names as 0 and a zero divisor as 1, and fails if and only if it holds a malformed constant or a `**` with a negative exponent under that reading, with the first of them |
| ExprLaws.ShortCircuit | legacy-os/ports/bash/expr.c:671-724 | when the left side decides, the result is its truth value if and only if the right side has no such flaw, else the error of the first, whatever its variables hold |
| ExprLaws.RightDecides | legacy-os/ports/bash/expr.c:671-724 | when the left side does not decide, the right side is evaluated next and its truth value is the result |
| ExprLaws.StepIsUpdate | legacy-os/ports/bash/expr.c:1021-1049 | `++x` is `x += 1` and `--x` is `x -= 1`, evaluated or skipped, errors included |
| ExprLaws.PostGivesOld | legacy-os/ports/bash/expr.c:1067-1100 | `x++` and `x--` do the same and give the value from before |
| ExprLaws.VariableIsText | legacy-os/ports/bash/expr.c:1140-1246 | a name is worth what its text evaluates to one level deeper, for every text and store, and 0 if unset |
| ExprLaws.UnselectedArm | legacy-os/ports/bash/expr.c:623-668 | the result of a conditional in all cases: the selected arm's, or the error of the first flaw in the arm not selected, in its turn |
| ExprLaws.SkippedCanFail | legacy-os/ports/bash/expr.c:960-978 | `0 && 2 ** -1` and `0 && 08` are errors |
| ExprLaws.ReadBack | legacy-os/ports/bash/expr.c:321-341 | an assigned value is what the variable then reads as, through its decimal text |
| ExprLaws.Circle | legacy-os/ports/bash/expr.c:1140-1246 | variables that name each other in a circle end in the recursion error from every depth |
| Commands.Run | legacy-os/ports/bash/execute_cmd.c:572-1153 | a pending break or continue always names one of the enclosing loops, and its status is the last status |
| Shell.Shell.constructor | legacy-os/ports/bash/execute_cmd.c:400-427 | a shell about to run a tree with no bit set anywhere |
| Shell.Shell.Execute | legacy-os/ports/bash/execute_cmd.c:572-612 | with sticky in-place bits and counters the command has the outcome of `Commands.Run`; bits stay within the errexit cover, so it may be run again; with an exit pending nothing happens |
| Shell.Shell.ExecuteAndOr | legacy-os/ports/bash/execute_cmd.c:2804-2846 | `&&` and `\|\|` run the left side covered, as their meaning says |
| Shell.Shell.ExecuteSeq | legacy-os/ports/bash/execute_cmd.c:2742-2768 | `;` runs both sides, marking them when covered |
| Shell.Shell.ExecuteIf | legacy-os/ports/bash/execute_cmd.c:3752-3781 | the test runs covered and the arm as the `if` is covered |
| Shell.Shell.ExecuteLoop | legacy-os/ports/bash/execute_cmd.c:3685-3747 | `while` and `until` restore `loop_level` and have the meaning's outcome for every number of turns |
| Shell.Shell.ExecuteFor | legacy-os/ports/bash/execute_cmd.c:2871-3024 | `for` restores `loop_level` and has the meaning's outcome |
| Shell.Shell.AfterTurn | legacy-os/ports/bash/execute_cmd.c:3728-3741 | counting `breaking` or `continuing` down leaves or resumes exactly the loop the meaning says |
| Shell.Shell.ExecuteCase | legacy-os/ports/bash/execute_cmd.c:3534-3657 | clauses, `;&` and `;;&` have the meaning's outcome |
| Shell.Shell.BreakBuiltin | legacy-os/ports/bash/builtins/break.def:62-130 | sets a counter between 1 and `loop_level`, or neither outside loops |
| Shell.Shell.ExecuteSimple | legacy-os/ports/bash/execute_cmd.c:855-945 | a failing simple command jumps exactly when errexit is on and neither bit nor `!` covers it |
| Shell.Shell.ExecuteFunction | legacy-os/ports/bash/execute_cmd.c:5032-5072 | a call runs a fresh copy, marked if the call is covered; no stored definition ever carries a bit |
| Shell.Shell.CopyCommand | legacy-os/ports/bash/copy_cmd.c:365-459 | the copy has the same contents and bits on fresh nodes, and nothing else changes |
| Shell.Shell.CopyClauses | legacy-os/ports/bash/copy_cmd.c:101-114 | the same for case clauses |
| Marks.CoverIsShield | legacy-os/ports/bash/execute_cmd.c:604-610 | errexit skips a command if and only if a test, the left of `&&` or `\|\|`, or an inversion lies above it, or the whole is covered |
| Marks.RunSame | legacy-os/ports/bash/copy_cmd.c:365-459 | running a copy is running the original |
| CommandLaws.ErrexitOnlyStops | legacy-os/ports/bash/execute_cmd.c:920-945 | `set -e` changes a run only by stopping it, and never stops a covered command |
| CommandLaws.FuelIsIrrelevant | legacy-os/ports/bash/execute_cmd.c:3685-3747 | once a run has an outcome, no larger bound on turns and calls changes it |
| Surroundings.TakesRun | legacy-os/ports/bash/execute_cmd.c:3597-3650 | a `case` that comes to a clause, past clauses that do not match or out of one run before by `;&` or `;;&`, goes on as that clause does in the state left |
| Surroundings.FallsInto | legacy-os/ports/bash/execute_cmd.c:3637-3646 | the clause behind one that was run and ends in `;&` is entered in the state that one left |
| Surroundings.FramePasses | legacy-os/ports/bash/execute_cmd.c:3699-3741 | a loop, in any turn and out of its body or its own test, takes one level off a pending exit; any other construct passes it on; nothing more is run, and the status is as the frame leaves it |
| Surroundings.ExitsExactly | legacy-os/ports/bash/execute_cmd.c:2894-3002 | through any surroundings, loop tests included, `break k` leaves exactly the k innermost loops and `continue k` exactly k - 1, with the variables as at the exit |
| Surroundings.ContinueResumes | legacy-os/ports/bash/execute_cmd.c:3734-3741 | a `continue` with one loop left goes on with the next turn of that loop, or the next word of `for` |
| Surroundings.CoverOnPath | legacy-os/ports/bash/execute_cmd.c:604-610 | a command, also inside called functions, is entered covered if and only if the whole is, or a test, a left side or an inversion lies on the way to it |
| Surroundings.LeafJumps | legacy-os/ports/bash/execute_cmd.c:920-945 | wherever a simple command fails, be it a program, a function call, or a `break` or `continue` with a bad count, and also inside called functions, it ends the whole run with its status if and only if errexit is on and neither its own inversion nor anything around it shields it |
| Surroundings.FailedWhen | legacy-os/ports/bash/execute_cmd.c:920-945 | a simple command fails exactly by its program's status, its function's status even where errexit did not reach inside it, a missing function, or a count below one in a loop |
| Surroundings.JumpPassesAll | legacy-os/ports/bash/execute_cmd.c:926-942 | the errexit jump goes through all surroundings |
| Surroundings.ContinueInTest | legacy-os/ports/bash/execute_cmd.c:3699-3741 | a `continue` for a loop that stands in its own test resumes it if and only if the status the frames inside the test make of it lets the loop run; otherwise the loop is left with the last body's status; the variables are those at the `continue` |
| Surroundings.ContinueResumesLoop | legacy-os/ports/bash/execute_cmd.c:2894-3002 | `continue k`, through any surroundings, goes on with the next turn or word of the k-th loop around it, with the variables as they were |
| Surroundings.StatusParity | legacy-os/ports/bash/execute_cmd.c:1122-1126 | with no other loop's test on the way that status depends only on the parity of the inversions |
| Surroundings.ContinueBreaks | legacy-os/ports/bash/builtins/break.def:104-130 | `continue n` breaks out of every loop if and only if it is in a loop, n is below 1, and its failure does not end the shell |
| Surroundings.ContinueZero | legacy-os/ports/bash/builtins/break.def:117-122 | `for ...; do continue 0; done` ends at its first word with status 1 |
| Completion.TailPasses | legacy-os/ports/bash/execute_cmd.c:2824-2848 | the command run last in a group, a list, `&&`, `\|\|`, `if` or `case` gives the whole its status, inverted if the whole is, and its variables |
| Completion.TailPassesAll | legacy-os/ports/bash/execute_cmd.c:2824-2848 | the same through any nesting, up to the inversions on the way |
| Completion.ListGoesOn | legacy-os/ports/bash/execute_cmd.c:2729-2750 | the first command of a list hands on to the second in the state it left |
| Completion.LeftDecides | legacy-os/ports/bash/execute_cmd.c:2818-2848 | `&&` goes on after success and `\|\|` after failure; otherwise the left side's status and variables are the whole's |
| Completion.TestSelects | legacy-os/ports/bash/execute_cmd.c:3752-3781 | `then` is run after success and `else` after failure, in the state the test left; without such a part the status is 0 |
| Completion.NoMatch | legacy-os/ports/bash/execute_cmd.c:3590-3656 | a `case` without a match does nothing and has status 0 |
| Completion.LoopEnds | legacy-os/ports/bash/execute_cmd.c:3680-3747 | a loop that its test stops after n rounds has the last body's status, 0 if there was none, and the variables its last test left |
| Completion.ForEnds | legacy-os/ports/bash/execute_cmd.c:2871-3002 | a `for` takes its words one after the other and has the last body's status, 0 if there was none |
| Completion.ProgramReturns | legacy-os/ports/bash/execute_cmd.c:920-945 | a program that does not set off errexit returns its status and leaves its variables |
| Completion.CallReturns | legacy-os/ports/bash/execute_cmd.c:5032-5200 | a function returns the status of its body and leaves its variables; without one the status is 127 |
| Completion.JumpsOut | legacy-os/ports/bash/builtins/break.def:62-130 | `break n` and `continue n` return 0 outside loops, and inside are for the n-th loop around them or the outermost |
| Completion.LevelOnPath | legacy-os/ports/bash/execute_cmd.c:5210-5214 | the loops that count are those since the last function call |
| Completion.BreakLeaves | legacy-os/ports/bash/builtins/break.def:62-88 | `break n` ends the n-th loop around it normally, or the outermost if there are fewer, with the variables as they were |
| CommandLaws.UntilContinue | legacy-os/ports/bash/execute_cmd.c:3699-3741 | `until continue` ends its loop |
| Entries.InsertSorted | legacy-os/ports/bash/array.c:550-633 | an insertion between its neighbours keeps the order and is the map update |
| Entries.DeleteSorted | legacy-os/ports/bash/array.c:639-691 | a deletion keeps the order and removes the one key |
| Entries.IndexAtLeast | legacy-os/ports/bash/array.c:200-253 | the k-th lowest index is at least k |
| Entries.ShiftedSorted | legacy-os/ports/bash/array.c:200-253 | lowering the kept indices by n keeps them non-negative and strictly increasing, however sparse |
| Entries.ShiftedMap | legacy-os/ports/bash/array.c:200-253 | the shifted map has i if and only if the old one had i + n among the kept, with the same value |
| Entries.RShiftedMap | legacy-os/ports/bash/array.c:255-300 | raising by n moves every value from i to i + n, and a given value is the new element 0 |
| Entries.PushPop | legacy-os/ports/bash/array.h:155-158 | a push and then a pop restore the array |
| LinkedArray.AddBefore | legacy-os/ports/bash/array.c:48-54 | linking in front of a node inserts there in the ring, in both directions |
| LinkedArray.AddAfter | legacy-os/ports/bash/array.c:56-62 | linking behind a node inserts there in the ring |
| LinkedArray.LinkedArray.constructor | legacy-os/ports/bash/array.c:80-94 | an empty array |
| LinkedArray.LinkedArray.Start | legacy-os/ports/bash/array.c:581-597 | the search start is a live element on the right side of i for the direction chosen, whatever `lastref` is |
| LinkedArray.LinkedArray.Insert | legacy-os/ports/bash/array.c:550-633 | the map is updated at i, the result is 0 so that -1 is unreachable, and ring, order, counts and `lastref` stay valid |
| LinkedArray.LinkedArray.Remove | legacy-os/ports/bash/array.c:639-691 | the element is unlinked and returned if and only if present; the map loses the key |
| LinkedArray.LinkedArray.Reference | legacy-os/ports/bash/array.c:696-745 | the value or null; after a miss in range no element lies between `lastref` and i |
| LinkedArray.LinkedArray.Flush | legacy-os/ports/bash/array.c:96-113 | empties the array |
| LinkedArray.LinkedArray.Copy | legacy-os/ports/bash/array.c:126-145 | a separate array with the same entries and the corresponding `lastref` |
| LinkedArray.LinkedArray.Shift | legacy-os/ports/bash/array.c:200-253 | drops the n lowest, returns them as a null-terminated chain in order unless disposed of, and renumbers the rest |
| LinkedArray.LinkedArray.RShift | legacy-os/ports/bash/array.c:260-294 | raises every index by n, puts a given value at 0, and returns the new count |
| FlatArray.FlatArray.constructor | legacy-os/ports/bash/array2.c:109-120 | an empty table |
| FlatArray.FlatArray.Resize | legacy-os/ports/bash/array2.c:70-90 | keeps enough slots or takes the first n, filled up with nulls; the table stays valid, with its contents, if and only if n is at least `max_index` |
| FlatArray.FlatArray.Expand | legacy-os/ports/bash/array2.c:92-107 | leaves the allocation above n with the contents kept |
| FlatArray.FlatArray.Flush | legacy-os/ports/bash/array2.c:122-141 | empties the table |
| FlatArray.FlatArray.Insert | legacy-os/ports/bash/array2.c:675-705 | the map is updated at i; the result is 0 exactly for a replaced element; `first_index` stays a lower bound and `max_index` exact |
| FlatArray.FlatArray.Remove | legacy-os/ports/bash/array2.c:711-743 | the element is returned if present and the map loses the key, with both bounds repaired |
| FlatArray.FlatArray.Reference | legacy-os/ports/bash/array2.c:748-762 | the value or null |
| ArrayRuns.SameRun | legacy-os/ports/bash/array2.c:109-762 | for every sequence of insert, remove, reference and flush from creation on, list and table give the answers of a finite map |
| Compound.HighestIsMax | legacy-os/ports/bash/arrayfunc.c:791-803 | `max_index` is the greatest key of the map, from which negative subscripts count back |
| Compound.BindElement | legacy-os/ports/bash/arrayfunc.c:225-249 | assigns or appends at one index of the map |
| Compound.AssignCompound | legacy-os/ports/bash/arrayfunc.c:698-874 | equals the fold of the words over contents, next index and shell variables, negative and failing subscripts included |
| Compound.BareWordsFill | legacy-os/ports/bash/arrayfunc.c:835-861 | bare words fill consecutive indices from the next one and touch nothing else |
| Compound.AppendKeeps | legacy-os/ports/bash/arrayfunc.c:727-728 | appending keeps every element and puts the words behind the highest index |
| Compound.SetsOne | legacy-os/ports/bash/arrayfunc.c:225-249 | `[i]=v` sets the one element, and the next bare word goes behind it |
| Compound.AppendsBehind | legacy-os/ports/bash/variables.c:2990-3020 | `[i]+=v` puts v behind the text that was there, nothing if unset or null, and changes no other element |
| Compound.CountsFromTop | legacy-os/ports/bash/arrayfunc.c:791-803 | `[-k]` is `[h + 1 - k]` with h the highest index, and nothing if that is negative |
| Compound.NothingToCount | legacy-os/ports/bash/arrayfunc.c:791-803 | in an empty array a negative subscript is passed over |
| Compound.SubscriptByValue | legacy-os/ports/bash/arrayfunc.c:1338-1378 | a subscript counts by its value, what it does to variables stays, and an error in it ends the list |
| Compound.NoSubscript | legacy-os/ports/bash/arrayfunc.c:776-790 | an empty subscript, `@` and `*` are passed over |
| Compound.DecimalSubscript | legacy-os/ports/bash/arrayfunc.c:1338-1378 | a decimal subscript evaluates to itself, whatever the shell variables are |
| Compound.ToWords | legacy-os/ports/bash/array.c:1005-1057 | one `[index]=value` word per element, in order |
| Compound.PrintAssign | legacy-os/ports/bash/array.c:1022-1046 | assigning the printed words from nothing restores the map, nulls as empty strings |
| Compound.Restore | legacy-os/ports/bash/arrayfunc.c:718-861 | printing one array and assigning the words without append to any array gives it the printed contents and changes no variable |
| Sequences.MkSeq | legacy-os/ports/bash/braces.c:359-469 | gives up exactly on the checks, else fills the vector with \|end - start\| / \|incr\| + 1 elements, the k-th start + k * incr toward end, in decimal, padded, or as a letter |
| Sequences.Fill | legacy-os/ports/bash/braces.c:410-465 | the loop stays within 64 bits and within the vector and writes exactly that many elements |
| Sequences.ElementInside | legacy-os/ports/bash/braces.c:410-465 | every element lies between the two ends |
| Sequences.BothFit | legacy-os/ports/bash/braces.c:370-397 | difference and increment both have 64-bit absolute values if and only if neither is the least integer |
| Sequences.OverflowExactly | legacy-os/ports/bash/braces.c:383-397 | the overflow checks hold exactly when the sum or difference leaves the limits, for an operand within them |
| Sequences.StepsExact | legacy-os/ports/bash/braces.c:387-404 | the count computed in wrapped 64-bit arithmetic is the true one if and only if the ends are not 0 and the least integer, or the increment is the least integer too |
| Sequences.RoomExactly | legacy-os/ports/bash/braces.c:399-405 | on the same condition, and only then, the vector has room for exactly the elements and the terminator |
| Sequences.TooFewSlots | legacy-os/ports/bash/braces.c:383-405 | for 0 and the least integer with increment 1 the checks pass, two slots are asked for, and 2^63 + 1 elements are due |
| SeqTerms.LegalNumber | legacy-os/ports/bash/general.c:248-284 | a whole text that is a 64-bit number, with blanks behind it skipped, or none |
| SeqTerms.NumberParsed | legacy-os/ports/bash/braces.c:500-530 | white space, one sign and digits are read as their value; one that does not fit gives the nearest that does, and is reported |
| SeqTerms.WholeNumber | legacy-os/ports/bash/general.c:248-284 | a whole number may have white space before and blanks behind it, and must fit 64 bits |
| SeqTerms.ExpandSeqterm | legacy-os/ports/bash/braces.c:471-582 | the words of a sequence expression: ends, increment and padding as the source reads them, or none |
| SeqTerms.Padding | legacy-os/ports/bash/braces.c:558-573 | padding is asked for by a leading zero in either end, to the width of the wider one |
| SeqTerms.IntRange | legacy-os/ports/bash/braces.c:471-582 | lo..hi and lo..hi..incr are read back as these numbers, for all 64-bit numbers and any leading zeros |
| SeqTerms.LetterRange | legacy-os/ports/bash/braces.c:508-541 | a..b and a..b..incr are read back as these letters |
| SeqTerms.LetterWords | legacy-os/ports/bash/braces.c:432-440 | the words of {a..b} are every character from a to b, in order |
| SeqTerms.PaddedRange | legacy-os/ports/bash/braces.c:426-432 | the elements of a padded range are all as wide as the wider end, and each reads back as itself |
| SeqTerms.PaddedReadsBack | legacy-os/ports/bash/braces.c:426-432 | a padded element reads back as itself if and only if it fits an `int` |
| Braces.BraceGobbler | legacy-os/ports/bash/braces.c:593-724 | the loop computes the scan function: quotes, escapes, `${`, substitutions, depth and separators |
| Braces.ArrayConcat | legacy-os/ports/bash/braces.c:731-781 | gives the full product; the two shortcuts change nothing |
| Braces.BraceExpand | legacy-os/ports/bash/braces.c:103-278 | ends on every text and computes the expansion function |
| Braces.ExpandAmble | legacy-os/ports/bash/braces.c:284-352 | expands every top-level arm of an amble, in order |
| Braces.NoSeparator | legacy-os/ports/bash/braces.c:103-278 | a text without commas and dots is left as it is |
| BracePatterns.PatternGoes | legacy-os/ports/bash/braces.c:593-724 | scanning for a close or a separator passes over every whole pattern, quoted parts and parameters included |
| BracePatterns.ExpandPrint | legacy-os/ports/bash/braces.c:103-352 | expanding a printed pattern gives its left-to-right product, for every pattern of quoted and escaped literals, parameters, substitutions, alternations, sequences that succeed or fail, and braces and commas that mean nothing |
| BracePatterns.NeverHits | legacy-os/ports/bash/braces.c:593-724 | from an open brace with no separator before the closing ones, or none to close it, no brace expression is found |
| BracePatterns.LoneBrace | legacy-os/ports/bash/braces.c:122-147 | braces around a text without separators stay, and the rest of the word is expanded all the same |
| BracePatterns.CommaExactly | legacy-os/ports/bash/braces.c:205-222 | an amble has a separator if and only if one of its commas is not escaped |
| BracePatterns.RangeExpands | legacy-os/ports/bash/braces.c:205-278 | {lo..hi} and {lo..hi..incr}, with any leading zeros, expand to the numbers from lo toward hi, or stay as they are if the range is refused |
| BracePatterns.PlainRange | legacy-os/ports/bash/braces.c:205-278 | {lo..hi} with plain decimal ends expands to every number between them in plain decimal, in order |
| BracePatterns.CatMeans | legacy-os/ports/bash/braces.c:731-781 | concatenated patterns expand to the product of their expansions |
| BraceNames.StringGcd | legacy-os/ports/bash/bracecomp.c:47-63 | the length of the longest common prefix |
| BraceNames.CommonPrefix | legacy-os/ports/bash/bracecomp.c:47-63 | that many characters agree |
| BraceNames.CommonShrinks | legacy-os/ports/bash/bracecomp.c:86-100 | the common prefix with the first name never grows along a sorted list |
| BraceNames.AscendingGroups | legacy-os/ports/bash/bracecomp.c:86-100 | a list in `strcmp` order keeps names with a common prefix together |
| BraceNames.QsortedGroups | legacy-os/ports/bash/bracecomp.c:152-174 | so does the order of `_strcompare`, whose first bytes are signed |
| BraceNames.BackslashQuote | legacy-os/ports/bash/lib/sh/shquote.c:261-312 | writes each character, or it behind a backslash |
| BraceNames.ReallyMungeBraces | legacy-os/ports/bash/bracecomp.c:65-150 | the nested loops write the text of the name pattern, at the top and below it |
| BraceNames.MungeWords | legacy-os/ports/bash/bracecomp.c:65-150 | the arms expand to the rests of the names, in order, up to quoting |
| BraceNames.NamesReturn | legacy-os/ports/bash/bracecomp.c:65-150 | expanding the completion text and removing quotes gives back any list that keeps common prefixes together, in order, duplicates included |
| BraceNames.HackBraces | legacy-os/ports/bash/bracecomp.c:165-185 | the same for the text that completion puts in place of the names, and for a lone name |
| Aliases.SkipQuotesLoop | legacy-os/ports/bash/alias.c:321-345 | the closing quote or the end |
| Aliases.SkipWsLoop | legacy-os/ports/bash/alias.c:350-427 | what is skipped before a token, and whether a command word follows |
| Aliases.ReadToken | legacy-os/ports/bash/alias.c:437-475 | the end of the token |
| Aliases.SegmentsTile | legacy-os/ports/bash/alias.c:478-592 | the slices cover the line exactly once and in order, and a replaced slice is exactly an alias name |
| Aliases.NoAliasNoChange | legacy-os/ports/bash/alias.c:478-592 | a line none of whose tokens is an alias comes back as it was, whatever aliases occur within its tokens |
| Aliases.FirstWordExpands | legacy-os/ports/bash/alias.c:500-580 | an alias name that opens a line gives way to its value, and the next word may expand after a blank-ended value |
| Aliases.ArgumentStays | legacy-os/ports/bash/alias.c:500-580 | an alias name among the arguments is replaced if and only if the value before it ended in a blank |
| Aliases.CommandWordExpands | legacy-os/ports/bash/alias.c:416-423 | an alias name behind a command separator gives way to its value |
| Aliases.AliasExpand | legacy-os/ports/bash/alias.c:478-592 | ends on every line and writes exactly the slices, replaced or verbatim |
| AliasWords.LineExpands | legacy-os/ports/bash/alias.c:478-592 | a line of words and gaps becomes the same line with exactly the words replaced that open a command or follow a blank-ended value and hold no backslash, or all with `alias_expand_all` |
| AliasWords.LineTokens | legacy-os/ports/bash/alias.c:347-475 | the tokens read are the words and closing parentheses of the line, whatever is quoted or escaped |
| AliasWords.WordIsToken | legacy-os/ports/bash/alias.c:437-475 | a word of bare, escaped and quoted parts is read as one token |
| AliasWords.GapsSkipped | legacy-os/ports/bash/alias.c:347-427 | blanks, separators, escaped characters, quoted strings and words that begin with either are passed over, and only separators announce a command |
| AliasWords.QuotedIsNoAlias | legacy-os/ports/bash/alias.c:437-475 | a word with anything quoted or escaped in it is no alias, as long as alias names are bare |
| AliasWords.UnclosedToken | legacy-os/ports/bash/alias.c:455-470 | a quote that nothing closes takes the rest of the line into the token |

## Left out

- Tokens.NextToken: a subscript after a name is an error where the source evaluates it.
- Evaluator.Evaluator.Lookup: an unset variable is 0; the `set -u` error, read-only and special variables are not modelled.
- Operators.Apply: shift counts outside 0..63 are taken modulo 64, which C leaves open.
- The `OP=` token carries its operator where the source keeps it in `assigntok`; error messages and `lasttp` are not modelled.
- Commands.Run: `fuel` bounds loop turns and nested calls, so a run that never ends has no outcome; `CommandLaws.FuelIsIrrelevant` covers the others.
- Shell.Shell.ExecuteFor: a bad or read-only loop variable, which returns early in the source, is not modelled.
- Shell.Shell.ExecuteSimple: the POSIX-mode exit after a failed special builtin and the ERR trap are not modelled.
- Word expansion, pattern matching and programs are functions of the state given to the executor; `set -e` is fixed during a run, and functions are not redefined.
- Pipes, subshells, background commands, redirections, traps, signals, `return`, arithmetic `for`, `select`, `[[ ]]` and `(( ))` commands.
- Shell.Shell.CopyClauses: builds the clause list directly, not reversed and turned round.
- `array_slice`, `array_subrange`, the quoting walks and word-list conversions of array.c, and the shift operations of array2.c.
- Array indices are unbounded: a renumbering past the largest `intmax_t` is not modelled.
- Compound.AssignCompound: words come already expanded and split into subscript and value; associative arrays, integer and case-changing attributes, the fallback for a malformed bracket, and `no_longjmp_on_fatal_error` are not modelled.
- Compound.ToWords: the quoting of values is not modelled.
- Braces.BraceExpand: the end of a command substitution is a parameter; stepping is by bytes; running out of memory is not modelled.
- Sequences.MkSeq: a range whose element count does not fit the 64-bit arithmetic of the source is outside its contract; `Sequences.RoomExactly` says which ranges those are.
- SeqTerms.ExpandSeqterm: gives nothing for those ranges; letters and white space are those of the C locale.
- The hash table behind aliases is a finite map.
- Memory allocation and release everywhere.
