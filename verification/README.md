# 3code in Dafny

3code is a tiny esoteric language with one accumulator, six integer registers
(`x y z` shared by the whole program, `i j k` private to each call) and calls
written `name[arg arg ...]`. Its Python 2 implementation (`kang-3code.py`) is a
pipeline with four stages:

- A tokenizer cuts a line into words.
- A parser turns the words into statements: literals, register reads, `=r`
  assignments, calls, `then ... else ... ?` conditionals and `F name arity ...`
  definitions.
- A compiler lowers the statements to eleven stack-machine opcodes.
- A virtual machine executes those opcodes one `step` at a time.

The older C++ interpreter (`source/3code.cpp`) contributes only its pure
helpers: the tokenizer, the register-name and number recognisers, the token
queue and the ordering on function signatures.

The model keeps the stages apart, one module per file:

| file | module | stage |
|---|---|---|
| `wrappers.dfy` | `Wrappers` | `Option` and `Result` |
| `registers.dfy` | `Registers` | the six registers, their names and slots, `isVariable` |
| `lexer.dfy` | `Lexer` | `tokenize` / `getTokens`, with a maximal-run reference definition |
| `parser.dfy` | `Parser` | `parseline` (bracket matching, block scanning) and `parse` |
| `parser_facts.dfy` | `ParserFacts` | `parseline` reads printed statements back; its error cases |
| `compiler.dfy` | `Compiler` | `compile` and `travel` |
| `compiler_facts.dfy` | `CompilerFacts` | a decompiler and the round trip; what `compile` accepts |
| `builtins.dfy` | `Builtins` | `ifunc`: floor division, comparisons, the output builtins |
| `machine.dfy` | `Machine` | `reset`, `clear`, `add`, `step`, `execute`, and the state invariant |
| `machine_facts.dfy` | `MachineFacts` | what each opcode does, its error conditions, call and return |
| `correctness.dfy` | `Correctness` | compiled code run on the machine agrees with a direct interpreter |
| `cpp_helpers.dfy` | `CppHelpers` | `isNumber`, `token_sequence`, `func_def::operator<` |

Tokens are `Num(n)`, `Long(n)` or `Ident(s)`. Statements, instructions and machine states
are immutable datatypes. `Step` is a total function returning `Running`,
`Halted` or `Failed(error, state)`; a run takes a fuel bound because 3code
programs need not terminate. Output is an event log in the state (`Print`,
`PrintLine`, `Write`, `Newline`) rather than text on a stream. Machine values
are unbounded integers, as Python 2's `int` silently becomes `long` on
overflow. Literal tokens keep Python 2's split: an all-digit word up to
`sys.maxint` (2^63 - 1, the value on a 64-bit build) is an `int` (`Num`), a
larger one is a `long` (`Long`). The parser's `type(x) is int` tests reject a
`long`, so a `long` literal is held like a function name. `/` is Python 2's floor division, written out as
`FloorDiv`, and `write` accepts the codes 0..255, as `chr` does.

The model follows the Python code in these places:

- A nested call leaves its result on the stack with no `POP`; only a call
  statement gets one (kang-3code.py:131-132 and 150-151).
- For a zero-arity call, `argstack[-0:]` is the whole stack. `nl` therefore
  replaces the entire stack by the accumulator. A zero-arity user function gets
  the three deepest stack values (or zeros) in `i j k` and an empty stack.
- Builtins replace their arguments by the accumulator, after setting it when
  the builtin has a result. A statement such as `print[5]` therefore pops the
  old accumulator back, not 5.

## Model

| member | source | states |
|---|---|---|
| Registers.Index | kang-3code.py:126 | a register's slot is the position of its one-letter name in `xyzijk`, and it is below 3 exactly for the global registers `x y z` |
| Registers.IndexInjective | kang-3code.py:126 | two registers share a slot only when they are the same register |
| Registers.FromName | kang-3code.py:66-67 | a string names a register exactly when it is one of the six names, and then it is that register's name |
| Registers.NameRoundTrip | kang-3code.py:50 | reading a register's own name gives that register back |
| Registers.IsVariable | source/3code.cpp:134-137 | true for exactly the six strings `x y z i j k` and no other |
| Lexer.PlainRun | kang-3code.py:44-45 | the length of the longest prefix of characters that are neither whitespace nor one of `= [ ] ?` |
| Lexer.ScanIsWords | kang-3code.py:39-46 | the character loop, from any position with an open word, emits the open word and then the maximal-run words of the rest of the line |
| Lexer.ScanSpace | source/3code.cpp:110-114 | the loop's whitespace step agrees with the reference words: it closes the open word and emits nothing else |
| Lexer.ScanSpecial | source/3code.cpp:115-122 | the loop's step on one of `= [ ] ?` agrees with the reference words: it closes the open word and emits the character as a word of its own |
| Lexer.Split | source/3code.cpp:105-131 | the word list of a line equals `Words`, the reference definition that cuts maximal runs from the front |
| Lexer.SplitShape | kang-3code.py:37-46 | no word is empty or holds whitespace, a word holding one of `= [ ] ?` is that character alone, and the words joined give the line without whitespace |
| Lexer.WordsShape | source/3code.cpp:105-131 | the reference words are well formed and join to the line without whitespace |
| Lexer.SplitJoin | kang-3code.py:37-46 | splitting well-formed words joined by blanks gives back exactly those words, so splitting inverts joining |
| Lexer.Classify | kang-3code.py:47 | a word becomes an integer exactly when it is all decimal digits, with its decimal value: an `int` when that value is at most `sys.maxint`, a `long` above it; otherwise an identifier with the same text |
| Lexer.Tokenize | kang-3code.py:37-47 | one token per word, in order; each is an integer exactly when its word is all digits, an `int` exactly when its value is at most `sys.maxint`, and an identifier keeps its word's text |
| Lexer.DigitWord | kang-3code.py:37-47 | a line of one all-digit word is one `int` token when its value is at most `sys.maxint` and one `long` token above it |
| Parser.ScanCloseSpec | kang-3code.py:57-60 | the bracket loop stops at the first position where the depth counted from the `[` returns to zero, and finds none exactly when the depth stays positive to the end |
| Parser.MatchBracket | kang-3code.py:54-60 | the matching `]` is the first position after the `[` where the nesting depth is zero again; `None` (Python's `IndexError`) exactly when the depth never returns to zero |
| Parser.FindTok | kang-3code.py:74 | the scan stops at the first position holding a terminator; `None` when none lies ahead |
| Parser.ParseLine | kang-3code.py:49-95 | `parseline` never raises the two definition errors, which belong to `parse`; its results are stated by the `ParserFacts` lemmas |
| Parser.ParseFromExtends | kang-3code.py:53-92 | the parsing loop only ever appends to the statements found so far, and nothing it appends is or holds a definition |
| Parser.ParseLineDefFree | kang-3code.py:49-95 | no statement `parseline` returns is, or contains, a definition |
| Parser.SplitLines | kang-3code.py:100 | no line that `splitlines` returns holds a line-break character |
| Parser.ParseTokens | kang-3code.py:103-118 | an `F` line needs an identifier name and an `int` arity (not a `long`), or fails "invalid function definition"; an arity above 3 fails; otherwise it is one definition whose body is the rest of the line; any other line is what `parseline` returns |
| Parser.ParseLines | kang-3code.py:100-118 | the lines loop extends what it has, keeps definitions at the top level, and an error names a line it has reached |
| Parser.Parse | kang-3code.py:97-119 | a parsed program has definitions only at the top level, and an error carries a line number between 1 and the number of lines |
| ParserFacts.SplitLinesJoin | kang-3code.py:100 | on text without `\r`, joining the lines `splitlines` returns with `\n` gives the text back, up to a final line break |
| ParserFacts.LinesFromJoin | kang-3code.py:100 | on text without `\r`, the line splitter returns no lines exactly on empty input, and loses nothing but a final line break |
| ParserFacts.ParseLinesAppend | kang-3code.py:100-118 | parsing two runs of lines gives the first run's statements followed by the second's; the first error wins, and an error in the second run is numbered `|ls1|` lines further down |
| ParserFacts.ParseLinesAcc | kang-3code.py:98-116 | statements collected before a line stay in front of everything later lines add |
| ParserFacts.ParseLinesShift | kang-3code.py:100-118 | lines after a prefix parse as they would alone, with error line numbers moved down by the prefix's length |
| ParserFacts.ParseLinesPrefix | kang-3code.py:100-118 | the loop finishes the first run of lines exactly as it would alone before reaching the rest |
| ParserFacts.ParseLinesStep | kang-3code.py:100-118 | one round of the loop: a line without tokens adds nothing, otherwise its statements are added or its error, numbered with its line, ends the parse |
| ParserFacts.ParseTokensLine | kang-3code.py:104-118 | the line number appears only in the error a line raises |
| ParserFacts.ParseOneLine | kang-3code.py:97-119 | `parse` of text without line breaks is nothing for a line without tokens, else the one line's definition or statements, errors numbered 1 |
| ParserFacts.ParseFirstLine | kang-3code.py:97-119 | `parse` of a line, `\n`, then more text is the first line's result followed by the rest's, with the rest's error lines counted one further down |
| ParserFacts.ArgsFound | kang-3code.py:54-61 | in a printed call, the `]` matching its `[` is the one printed last, and the tokens between parse back to the arguments |
| ParserFacts.BlockFound | kang-3code.py:74-79 | a printed block followed by a terminator ends exactly there and parses back to itself |
| ParserFacts.FindFirst | kang-3code.py:74 | the block scan stops at the first `?` or `else` |
| ParserFacts.ParseLineRoundTrip | kang-3code.py:49-95 | `parseline` reads every printable statement list back unchanged: printing is a right inverse of parsing |
| ParserFacts.AssignNeedsRegister | kang-3code.py:65-69 | after printed statements, `=` followed by anything but a register name or `[` fails "incomplete assignment" |
| ParserFacts.EqualsBracketIsCall | kang-3code.py:54-65 | `=[ ... ]` is a call of the builtin `=`, not an assignment |
| ParserFacts.NameNeedsArguments | kang-3code.py:86-87 | after printed statements, a pending name followed by anything but `[` or `then` fails "function should be followed by arguments" |
| ParserFacts.LineEndsSettled | kang-3code.py:93-94 | a line of printed statements followed by a pending name or `=` fails "incomplete statement" |
| ParserFacts.LongIsPending | kang-3code.py:86-94 | a `long` literal after printed statements is neither emitted nor settled: at the end of a line it fails "incomplete statement", and followed by anything but `[` or `then` it fails "function should be followed by arguments" |
| ParserFacts.BracketNeverCloses | kang-3code.py:57-63 | a `[` followed by tokens that never close more brackets than they open has no match |
| ParserFacts.UnbalancedCall | kang-3code.py:54-63 | after printed statements, a call whose `[` is never closed fails "incomplete function call" |
| ParserFacts.NoTerminatorAfter | kang-3code.py:74 | with no terminator ahead the block scan finds none |
| ParserFacts.ThenNeedsTerminator | kang-3code.py:71-84 | after printed statements, a `then` with no `?` or `else` after it fails "incomplete conditional block" |
| ParserFacts.ElseNeedsQuestion | kang-3code.py:76-84 | after printed statements, `then`, a printed block, then an `else` with no `?` after it fails "incomplete conditional block" |
| Compiler.TravelArg | kang-3code.py:127-132 | a literal argument is one `PUSHN` and a register argument one `PUSH`; assignments, conditionals and definitions are not values |
| Compiler.CompileNode | kang-3code.py:149-162 | literals, reads and assignments compile to exactly one `STORE`, `GET` or `SET`; a call statement named by an integer is rejected; a call statement's code ends in its `CALL` followed by exactly one `POP`, the only `POP` in it, since nested calls get none |
| CompilerFacts.TravelArgAccepts | kang-3code.py:127-132 | `travel` accepts an argument exactly when it is a literal, a register, or a call whose arguments are all of that kind |
| CompilerFacts.CompileNodeAccepts | kang-3code.py:134-164 | a statement compiles exactly when its calls are named by identifiers and take only such arguments, at every depth |
| CompilerFacts.CompileAccepts | kang-3code.py:121-165 | a program compiles exactly when every statement in it does; otherwise `compile` raises |
| CompilerFacts.RebuildArgs | kang-3code.py:127-132 | replayed symbolically, the code of an argument list pushes the arguments in order, the first one deepest |
| CompilerFacts.RebuildStatement | kang-3code.py:149-151 | a call statement's code, up to and including its single `POP`, replays to exactly that call and leaves nothing on the stack |
| CompilerFacts.CompileTail | kang-3code.py:138-148 | the code of a non-empty block is not empty and does not end in a jump |
| CompilerFacts.DecompileCompile | kang-3code.py:121-165 | decompiling compiled code gives back the statements: compilation loses nothing |
| CompilerFacts.CompileInjective | kang-3code.py:121-165 | two programs with the same compiled code are the same program |
| CompilerFacts.CompileConcat | kang-3code.py:134-165 | the code of a program is its parts' code, joined in order |
| Builtins.FloorDiv | kang-3code.py:213-217 | the quotient rounds towards minus infinity, for either sign of the divisor |
| Builtins.FloorDivUnique | kang-3code.py:215 | only one integer has that floor property, so `FloorDiv` is Python 2's `/` |
| Builtins.Flag | kang-3code.py:197-206 | a comparison gives 1 when it holds and 0 otherwise |
| Builtins.Apply | kang-3code.py:196-230 | a builtin fails exactly on an unknown name, too few arguments, a zero divisor or a `write` code outside 0..255; such a `write` code is "invalid character number" when it fits a C `long` and the uncaught `OverflowError` of `chr` beyond that; comparisons and arithmetic give a result and no output, the others give one output event and no result |
| Machine.Put | kang-3code.py:249 | setting a register changes that register and no other |
| Machine.Top | kang-3code.py:274 | the arguments of an `n`-ary call are the top `n` stack values, and the whole stack when `n` is 0 |
| Machine.Below | kang-3code.py:276 | what stays below the arguments, with the arguments on top, is the stack |
| Machine.LoadLocals | kang-3code.py:280 | `i j k` get the first three arguments, and 0 where there are fewer |
| Machine.Reset | kang-3code.py:179-183 | `reset` gives a well-formed machine |
| Machine.Clear | kang-3code.py:185-189 | `clear` keeps the machine well formed and makes the given code the current segment |
| Machine.Add | kang-3code.py:191-193 | `add` keeps the machine well formed and appends the code to the top level |
| Machine.Unwind | kang-3code.py:233-238 | running off the end returns to callers until an instruction is left or no frame remains (halt); it drops only top frames, pushes the accumulator once per return, and keeps `x y z`, the accumulator, the tables and the output |
| Machine.Return | kang-3code.py:236-237 | a return pops the top frame, resumes its segment and position with its `i j k`, and pushes the accumulator |
| Machine.Exec | kang-3code.py:240-292 | a failing instruction leaves the state as it was |
| Machine.CallOp | kang-3code.py:263-281 | a failing call leaves the state as it was |
| Machine.ReturnWf | kang-3code.py:236-238 | a return keeps the machine well formed |
| Machine.UnwindWf | kang-3code.py:233-238 | so do the returns at the top of `step` |
| Machine.ExecWf | kang-3code.py:240-292 | so does every instruction, `DEFINE` and calls included |
| Machine.StepWf | kang-3code.py:232-292 | every step keeps the machine well formed: the current, top-level and callers' segments exist and the builtins keep their arities |
| Machine.RunWf | kang-3code.py:294-297 | so does every run, however long |
| MachineFacts.PlainStep | kang-3code.py:242-257 | `NOP`, `STORE`, `GET`, `SET`, `PUSHN` and `PUSH` never fail and go on to the next instruction; `STORE` and `GET` set only the accumulator, `SET` only its register, and the pushes only add their value on top of the stack |
| MachineFacts.JumpStep | kang-3code.py:250-253 | `JMP d` skips the `d` instructions after it; `JZ d` skips them exactly when the accumulator is 0 and otherwise goes on with the next one; neither changes anything else |
| MachineFacts.CallChecks | kang-3code.py:263-272 | `CALL` fails on an undefined name, then on an arity mismatch, then on too few stack values, each leaving the state unchanged, and for no other reason outside the builtin itself |
| MachineFacts.PopChecks | kang-3code.py:258-262 | `POP` fails exactly on an empty stack; otherwise it moves the top value into the accumulator |
| MachineFacts.DefineChecks | kang-3code.py:282-287 | `DEFINE` fails exactly when the name is in the arity table, builtins included, and then changes nothing; otherwise it adds that one entry to both tables |
| MachineFacts.BuiltinCall | kang-3code.py:273-276 | a builtin of arity `n >= 1` replaces the top `n` values by one, the accumulator; arithmetic and comparisons set it to their result, the output builtins keep it |
| MachineFacts.BinaryOperands | kang-3code.py:196-217 | the first operand is the deeper stack value: `-`, `<` and `/` take the deeper value on the left |
| MachineFacts.DivisionChecks | kang-3code.py:213-217 | `/` fails exactly on a zero divisor, leaving the state unchanged |
| MachineFacts.WriteChecks | kang-3code.py:224-228 | `write` fails exactly outside 0..255, leaving the state unchanged: "invalid character number" inside the C `long` range, the uncaught `OverflowError` outside it; otherwise it logs the character and keeps the accumulator |
| MachineFacts.ZeroArityBuiltin | kang-3code.py:274-276 | `nl` replaces the whole stack by the accumulator alone and logs a line break |
| MachineFacts.UserCall | kang-3code.py:277-281 | a user call pushes a frame with the caller, the next position and the caller's `i j k`, loads the arguments and then zeros into `i j k`, removes the arguments, keeps `x y z` and starts the callee at 0 |
| MachineFacts.ZeroArityUserCall | kang-3code.py:280-281 | a user function without parameters takes the whole stack: its three deepest values (or zeros) go into `i j k` and the stack is emptied |
| MachineFacts.CallReturn | kang-3code.py:234-238 | when the callee runs off its end, the caller resumes after the call with its own `i j k`, the callee's `x y z` and the callee's accumulator pushed |
| MachineFacts.HaltAtEnd | kang-3code.py:234-235 | at the end of the top level with no frames, a step halts and changes nothing |
| MachineFacts.GlobalsOnlyBySet | kang-3code.py:232-292 | a step changes `x y z` only by executing a `SET` of a global register, never by a call or a return |
| MachineFacts.StepKeeps | kang-3code.py:282-287 | no step removes or changes an arity or a user function's code |
| MachineFacts.RunKeeps | kang-3code.py:297 | neither does any run |
| MachineFacts.ExecuteKeeps | kang-3code.py:294-297 | `execute` empties both stacks and installs the new top level but keeps the accumulator, the registers and every definition, to the end of the run |
| MachineFacts.ResetState | kang-3code.py:179-183 | after `reset` only the builtins are known, the top level is empty, every register and the accumulator are 0, and the next step halts |
| MachineFacts.AddAdd | kang-3code.py:191-193 | adding two pieces of code one after the other is adding them joined |
| MachineFacts.ClearAdd | kang-3code.py:185-193 | adding to freshly cleared code is clearing with the joined code |
| MachineFacts.AddStep | kang-3code.py:191-193 | adding code does not change a step taken inside the top-level code that was already there |
| Correctness.ArgRuns | kang-3code.py:254-257 | an argument's code pushes the argument's value in exactly as many steps as it has instructions |
| Correctness.CallArgRuns | kang-3code.py:273-276 | a nested binary call pushes its operands, then replaces them by its result, which is also left in the accumulator |
| Correctness.SkipRuns | kang-3code.py:252-253 | a conditional with a zero accumulator and no second block jumps just past its code in one step |
| Correctness.EnterBlock | kang-3code.py:252-253 | with a non-zero accumulator `JZ` falls through, so whatever the block after it does follows one step later, for any block |
| Correctness.JumpToBlock | kang-3code.py:252-253 | with a zero accumulator `JZ k` lands on the code `k` instructions on, so whatever that code does follows one step later, for any code |
| Correctness.ThenJump | kang-3code.py:250-251 | after any first block, the `JMP` over the second block lands just past it in one more step |
| Correctness.ThenRuns | kang-3code.py:250-253 | for a conditional whose blocks the direct interpreter gives a meaning, a non-zero accumulator runs the first block and the machine ends just past the whole conditional |
| Correctness.ElseRuns | kang-3code.py:250-253 | for a conditional whose blocks the direct interpreter gives a meaning, a zero accumulator runs the second block and the machine ends just past the whole conditional |
| Correctness.NodeRuns | kang-3code.py:240-292 | a statement's code runs in exactly the steps the direct interpreter counts and leaves the state it describes |
| Correctness.BlockRuns | kang-3code.py:240-292 | so does a block's code |
| Correctness.RunHalts | kang-3code.py:234-235 | a run at the end of the top level with no frames halts on the next step |
| Correctness.ExecuteCorrect | kang-3code.py:294-297 | `execute(compile(p))` reaches the end of the code in exactly the steps the direct interpreter counts, with its accumulator, registers and output and an empty stack, and halts on the next step |
| CppHelpers.FindFirstNotOf | source/3code.cpp:169 | the first position from `i` on whose character is outside the set; `npos` exactly when there is none |
| CppHelpers.IsNumberShape | source/3code.cpp:166-170 | `isNumber` accepts exactly an optional sign followed by any run of `.eE0123456789`, possibly empty |
| CppHelpers.IsNumberLoose | source/3code.cpp:166-170 | so the empty string, a lone sign and `e.E` pass as numbers, while `+-1` and `1-` do not |
| CppHelpers.Append | source/3code.cpp:27 | appending puts the new tokens at the back, in order, after the old ones |
| CppHelpers.Next | source/3code.cpp:32 | `next` drops the front token if there is one and answers whether any token is left |
| CppHelpers.IsNextIsNextThenCur | source/3code.cpp:33 | `isNext(t)` holds exactly when `next()` would succeed and `cur()` would then be `t` |
| CppHelpers.NextNDrops | source/3code.cpp:32 | `n` calls of `next` drop the first `n` tokens, or all of them |
| CppHelpers.StrLessIrreflexive | source/3code.cpp:48 | no string is below itself |
| CppHelpers.StrLessTransitive | source/3code.cpp:48 | string order is transitive |
| CppHelpers.StrLessTotal | source/3code.cpp:48 | of two different strings exactly one is below the other |
| CppHelpers.SigLessStrictOrder | source/3code.cpp:47-50 | the signature order is irreflexive and transitive |
| CppHelpers.SigEquivalent | source/3code.cpp:47-50 | two signatures are the same set entry exactly when they have the same name and arity, so one name with two arities gives two entries |

## Left out

- The command line, the REPL, help and version text, and reading files (kang-3code.py:301-404; source/3code.cpp:338-365). These are input and output plumbing.
- Text on the output stream. The output builtins append events to a log instead, and error messages become constructors of error datatypes.
- The unbounded `while self.step(): pass`. A run takes a fuel bound; `Running` at the end means the fuel ran out.
- `KeyboardInterrupt` handling, and the `KeyError` that `codes[self.func]` would raise for a missing segment. The state invariant `Wf`, which every step keeps, rules that case out.
- Compiler.CompileNode: every call statement named by an integer, `int` or `long`, is rejected. In Python, the names 0 and 1 collide with the tags `False` and `True` that mark conditionals and definitions, so such a statement mostly crashes and sometimes emits meaningless code; other integer names raise `ValueError`.
- Compiler.TravelArg: an assignment, conditional or definition used as a call argument is an error. Python crashes or emits meaningless code there instead.
- `compile` on a string parses it first (kang-3code.py:122-123). The model composes `Parse` and `Compile` instead.
- Parser.ParseLine: its own contract names only the errors it cannot raise. Its results are stated by the `ParserFacts` lemmas. The round trip covers printable statements only: those without definitions, and without a conditional nested in a conditional's block, which Python's first-terminator scan cannot read back.
- Machine.Reset: its own contract states only the invariant. What `reset` leaves is stated by `MachineFacts.ResetState`.
- Machine.Exec: its own contract states only that a failing instruction keeps the state. What each opcode does is stated by `MachineFacts.PlainStep`, `JumpStep`, `PopChecks`, `CallChecks` and `DefineChecks`.
- Machine.CallOp: likewise. What a call does is stated by `MachineFacts.CallChecks`, `BuiltinCall`, `UserCall` and their neighbours.
- Correctness.ExecuteCorrect: covers programs built from literals, register reads and writes, conditionals, and binary and one-argument output builtins. User functions, definitions and `nl` are not covered by the direct interpreter.
- Correctness.ThenRuns: requires the direct interpreter to give the conditional a meaning, so blocks holding user calls, definitions or `nl` are not covered. For those, only the jump steps `Correctness.EnterBlock`, `JumpToBlock` and `ThenJump` are stated.
- Correctness.ElseRuns: the same restriction as `ThenRuns`.
- Builtins.Apply: the `OverflowError` of `write` on a code outside the C `long` range escapes `ifunc` and the REPL, which catch only `RuntimeError` (kang-3code.py:349, 394), so Python stops with a traceback. The model stops the machine with `BuiltinFailed(CharOverflow)` and the state unchanged instead, as `MachineFacts.WriteChecks` states.
- ParserFacts.SplitLinesJoin: stated for text without `\r` only. With `\r`, `splitlines` also splits on a lone `\r` and on `\r\n`, and joining with `\n` cannot give that text back.
- MachineFacts.AddStep: excludes a `DEFINE` of the empty name. That name is the top level's own segment, and the parser never produces it.
- Python's register list grows after a zero-arity user call (`argstack[-0:] + [0] * 3`). Only its first six entries are ever read, so the model keeps six registers.
- `>=` and `<=` are in the arity table but unreachable from source text, because the tokenizer always splits `=` off (see `Lexer.SplitShape`). The model keeps them in the table as the code does.
- The C++ evaluator is not part of this model. This covers `interpStatement`, `callFunction`, `opAssignment`, `opThen`, `opElse`, `defineFunction`, `stream_cast`, `variableValue` and `setVariable`. It works on `double` values through global mutable state (source/3code.cpp:60-68, 172-318), and its `variableValue` tests `y` twice, so `z` is never read (source/3code.cpp:142).
- Characters. Python 2 reads the program as bytes, while the model's strings are Dafny `string`, whose characters are Unicode. Every character class the tokenizer tests (whitespace, `= [ ] ?`, digits) is ASCII, so the tokens are the same. Bytes outside ASCII become the characters with the same codes.
- `sys.maxint` is fixed at 2^63 - 1, its value on a 64-bit build. On a 32-bit build Python 2 makes a `long` of every all-digit word above 2^31 - 1.
- `token_sequence::cur` on an empty queue is undefined in C++. `CppHelpers.Cur` requires a non-empty queue.
