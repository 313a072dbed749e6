# Brewin interpreter, version 3: a verified model of its execution engine

The interpreter in `interpreterv3.py` runs a Brewin program one line at a time.
Brewin is a small teaching language. A program is a list of functions and
lambdas. Each line is a prefix-notation statement. Blocks are delimited by
indentation and closing keywords (`endif`, `endwhile`, `endfunc`,
`endlambda`).

This project models the core of that engine in Dafny. It proves the model's
contracts and the properties the interpreter promises. The modules mirror the
parts of the interpreter:

- `Syntax`: token kinds and the keywords and type names a token can spell.
- `Values`: the mutable `Value` cell, the object dictionary `Dict`, type
  defaults, type compatibility and the reserved result variables
  (`resulti`, `results`, `resultb`, `resulto`, `resultf`).
- `Ops`: the binary and unary operations of `_setup_operations`. This includes
  Python's floor division and string ordering.
- `Literals`: the literal forms `_get_value` recognises, with their round trips.
- `Prefix`: the stack machine of `_eval_expression` over abstract items, and
  the recursive-subexpression reading it implements.
- `Environments`: the environment manager, modelled as a stack of frames.
  Each frame is a stack of scopes. The manager is a class whose `frames`
  field its methods update.
- `Functions`: the function manager, a class holding the function table and
  the enclosing return types.
- `Blocks`: indentation and the block matchers used by `_if`, `_else`,
  `_exit_while`, `_endwhile`, `_lambda_or_func` and `_exit_lambda`. Each
  matcher is a specification function plus a method with a loop proved
  equal to it.
- `Engine`: the `Interpreter` class. Its fields are `ip`, the return stack,
  `terminate`, the environment and function managers, and the console input.
  It has one method per statement, `_process_line` as `ProcessLine`, and the
  `run` loop as `RunLoop`.

Outcomes use `Res<T> = Ok(T) | Fail(ErrorKind) | Crash`:

- `Fail(NameError | TypeError | SyntaxError)` is an error the interpreter
  reports through `error`.
- `Crash` is a failure of the host language that the interpreter does not
  anticipate, for example an index out of range or a missing key.

Values are `Value` cells that the interpreter updates in place (`Value.set`).
Object payloads are `Dict` objects shared by aliasing. A ghost set of cells
and dictionaries (`Cells`, `Dicts`) gives the heap closure that the
environment, the function captures and the object fields stay inside.

## Model

| member | source | states |
|---|---|---|
| Syntax.TypeNamed | interpreterv3.py:396-404 | a token names a type only when it spells that type's keyword, and a type token names its own type |
| Syntax.KeywordNamed | interpreterv3.py:69-95 | a token names a keyword only when it spells it |
| Syntax.KeywordNamedComplete | interpreterv3.py:69-95 | every keyword spelling is recognised as that keyword |
| Values.Value.constructor | interpreterv3.py:19-21 | a new cell holds the given type tag and payload |
| Values.Value.Set | interpreterv3.py:26-28 | `set` copies tag and payload from the other cell and changes nothing else |
| Values.Dict.constructor | interpreterv3.py:404 | a new object dictionary holds the given fields; the shared default starts with none |
| Values.DefaultFor | interpreterv3.py:396-404 | exactly `int`, `string`, `bool`, `void`, `func` and `object` have a default, tagged with its type; only `void`'s is void, and the object default holds the one shared dictionary |
| Values.CompatibleType | interpreterv3.py:407-415 | every parameter type keyword except `void`, including the `ref` forms, admits a value type, and none admits `void` |
| Values.ResultName | interpreterv3.py:419-425 | each returnable type has exactly one reserved result variable, `result` followed by its suffix; `void` has none |
| Values.ResultNamesDistinct | interpreterv3.py:419-425 | different types pass values back through different result variables |
| Values.ResultNameSpellings | interpreterv3.py:419-425 | the five result variables are `resulti`, `results`, `resultb`, `resulto` and `resultf` |
| Values.DefaultIsCompatible | interpreterv3.py:396-415 | the default of a declarable type is accepted where that type is a parameter type |
| Ops.FloorDivMod | interpreterv3.py:436-437 | Python `//` and `%` satisfy `a == b*(a//b) + a%b`, with the remainder taking the divisor's sign |
| Ops.FloorDivExamples | interpreterv3.py:436-437 | `-7 // 2 == -4`, `7 // -2 == -4` and `-7 % 2 == 1`: rounding is toward minus infinity |
| Ops.StrLessIrreflexive | interpreterv3.py:449-452 | no string is less than itself |
| Ops.StrLessTransitive | interpreterv3.py:449-452 | string `<` is transitive |
| Ops.StrLessTotal | interpreterv3.py:449-452 | any two different strings are ordered one way |
| Ops.StrAtLeastIsNotLess | interpreterv3.py:449-452 | `>=` holds exactly when `<` does not |
| Ops.IntOp | interpreterv3.py:432-444 | the integer operators give ints or bools as Python does; division or remainder by zero is a crash |
| Ops.StringOp | interpreterv3.py:445-453 | every string operation gives a well-tagged value; its order is the one the `StrLess` lemmas prove a strict total order |
| Ops.BoolOp | interpreterv3.py:454-459 | every boolean operation gives a well-tagged value |
| Ops.ApplyBinary | interpreterv3.py:533-541 | operands of different types are a type error, as is an operator the type lacks; otherwise the type's operation applies |
| Ops.ApplyNot | interpreterv3.py:542-546 | `!` negates a boolean and is a type error on any other type |
| Ops.IntDivisionFloors | interpreterv3.py:436-437 | `/` and `%` on ints are Python's floor operations, for every sign |
| Ops.StringComparisonsTrichotomy | interpreterv3.py:447-452 | for any two strings exactly one of `<`, `==`, `>` holds |
| Literals.ParseInt | interpreterv3.py:479-480 | a text that parses to an int is not empty and starts with a digit or `-` |
| Literals.ParseShowInt | interpreterv3.py:479-480 | every int's decimal spelling parses back to it |
| Literals.LeadingQuotes | interpreterv3.py:477-478 | `strip('"')` removes exactly the leading run of quotes from the front |
| Literals.TrailingQuotes | interpreterv3.py:477-478 | `strip('"')` removes exactly the trailing run of quotes from the back |
| Literals.StripQuotesEnds | interpreterv3.py:477-478 | the stripped text neither starts nor ends with a quote |
| Literals.StripQuotedLiteral | interpreterv3.py:477-478 | a quoted literal of quote-free text strips to that text |
| Literals.BeforeDotPrefix | interpreterv3.py:483-485 | the part before the first `.` is a prefix without dots |
| Literals.SplitDotParts | interpreterv3.py:483-485 | a dotted token splits into two dot-free parts that, joined by a dot, begin the token |
| Literals.ClassifyCases | interpreterv3.py:474-484 | the tests of `_get_value` classify a token, in their order, as empty, a quoted string, an int (or a malformed one), a boolean, `obj.field` or a name |
| Literals.IntLiteralRoundTrip | interpreterv3.py:479-480 | the spelling of every int is read back as that int |
| Literals.StringLiteralRoundTrip | interpreterv3.py:477-478 | a quoted quote-free string is read back as that string |
| Literals.BadMinusLiteral | interpreterv3.py:479-480 | `-x` and `-` are malformed int literals, and `-12` reads as -12 |
| Literals.LiteralValue | interpreterv3.py:477-482 | string, int and bool literals give a well-tagged value; a malformed int literal crashes; other tokens give none |
| Prefix.ItemFor | interpreterv3.py:532-549 | binary operators, `!` and operands become the evaluator items the scan treats differently |
| Prefix.RunPrefixStep | interpreterv3.py:532-549 | running items is stepping through them in order |
| Prefix.RunBalance | interpreterv3.py:532-552 | a scan that gets through ends with as many entries as the operand/operator balance of the items |
| Prefix.SingleValueRule | interpreterv3.py:551-552 | an expression has a value only when it leaves exactly one entry |
| Prefix.StepFrame | interpreterv3.py:532-549 | a step touches only the top of the stack; entries below are kept |
| Prefix.RunFrame | interpreterv3.py:532-549 | the same holds for a whole run |
| Prefix.RunAppend | interpreterv3.py:532-549 | running two item lists is running the first on the stack the second leaves |
| Prefix.BinaryOfSubexpressions | interpreterv3.py:533-541 | `op A B` evaluates to `op` applied to the values of `A` and `B` |
| Prefix.NotOfSubexpression | interpreterv3.py:542-546 | `! A` evaluates to the negation of `A`'s value |
| Prefix.IntItem | interpreterv3.py:479-480 | an int literal token is an operand item with that int |
| Prefix.SmallIntItems | interpreterv3.py:479-480 | the literals `2`, `3`, `4` and `5` read as those ints |
| Prefix.NegativeIntItem | interpreterv3.py:479-480 | `-7` reads as the int -7 |
| Prefix.StringItem | interpreterv3.py:477-478 | a quoted string token is an operand item with that string |
| Prefix.BoolItem | interpreterv3.py:481-482 | the `true` keyword token reads as the boolean true |
| Prefix.OperatorItems | interpreterv3.py:532-546 | `+`, `*`, `/` and `!` are operator items |
| Prefix.StepBinaryOn | interpreterv3.py:533-541 | a binary step pops the first operand from the top and the second beneath it |
| Prefix.StepBangOn | interpreterv3.py:542-546 | a `!` step replaces the top boolean with its negation |
| Prefix.EvalSum | interpreterv3.py:529-554 | `+ 5 3` is 8 |
| Prefix.EvalNested | interpreterv3.py:529-554 | `* + 2 3 4` is 20 |
| Prefix.EvalNot | interpreterv3.py:529-554 | `! True` is false |
| Prefix.EvalMixedTypes | interpreterv3.py:533-541 | `+ 5 "a"` is a type error |
| Prefix.EvalFloorDivision | interpreterv3.py:436-437 | `/ -7 2` is -4 |
| Prefix.EvalTwoValuesLeft | interpreterv3.py:551-552 | `5 3` leaves two entries and is a syntax error |
| Prefix.Examples | interpreterv3.py:529-554 | the same results starting from the tokens' spellings |
| Environments.Where | interpreterv3.py:494-497 | a name is found in the innermost scope of the frame that binds it; not found means no scope binds it |
| Environments.BlockLocalsVanish | interpreterv3.py:195-222 | after nesting a block, declaring in it and unnesting, the frames are as before the block |
| Environments.NestKeepsVisible | interpreterv3.py:203 | entering a block hides no variable |
| Environments.DeclaredIsFound | interpreterv3.py:357-363 | a declared name denotes its new cell, in the innermost scope |
| Environments.RebindFound | interpreterv3.py:363 | after the environment's `set` (here and at line 526), the name denotes the new cell and every other name is unchanged |
| Environments.WhereUpdate | interpreterv3.py:363 | the environment's `set` (here and at line 526) rebinds in the scope where the name lives and keeps every other name where it was |
| Environments.RebindOnlyTop | interpreterv3.py:363 | the environment's `set` (here and at line 526) changes only the current frame |
| Environments.NewFrameIsEmpty | interpreterv3.py:177-178 | a fresh call frame sees no caller variable, and the caller frames are kept |
| Environments.ImportedAreFound | interpreterv3.py:177-178 | the names imported into a new frame are exactly the names found in it |
| Environments.RedeclareInnermost | interpreterv3.py:357-363 | setting a name just declared in the innermost scope replaces the declared cell, as `_define_var` binds the default to the new symbol |
| Environments.DeclareKeys | interpreterv3.py:357-363 | a declaration adds just that name to the innermost scope |
| Environments.DeclareAll | interpreterv3.py:356-363 | declaring names in turn keeps the number of frames and of scopes |
| Environments.DeclareAllScope | interpreterv3.py:356-363 | after declaring distinct fresh names, each denotes its own cell and others are unaffected |
| Environments.DeclareAllSnoc | interpreterv3.py:356-363 | declaring one more name extends the declarations made so far |
| Environments.DeclareAllFrames | interpreterv3.py:356-363 | declaring names leaves every frame below the top, and every scope below the innermost, as they were |
| Environments.DeclareAllKeys | interpreterv3.py:356-363 | after the declarations the innermost scope binds exactly its old names and the declared ones |
| Environments.DeclareAllCells | interpreterv3.py:356-363 | each of distinct declared names is bound to its own cell in the innermost scope; every other name keeps its binding |
| Environments.ResultBinding | interpreterv3.py:521-526 | after passing a value back, the result variable denotes the copy, in the outermost scope when no block shadows it |
| Environments.ResultSetOnly | interpreterv3.py:521-526 | passing a value back changes only the current frame, and in it only the result variable |
| Environments.ResultKeepsDepth | interpreterv3.py:521-526 | passing a value back keeps the number of frames |
| Environments.MergeIsLookup | interpreterv3.py:161-166 | a name is in the merged captures exactly when it is visible in the captured frame, bound to the cell it is visible as |
| Environments.MergeIn | interpreterv3.py:161-166 | every merged binding is a captured cell |
| Environments.EnterFrame | interpreterv3.py:177-178 | pushing a frame and importing a scope gives a frame holding just that scope |
| Environments.EnvManager.constructor | interpreterv3.py:54 | the manager starts with one frame of one empty scope |
| Environments.EnvManager.Push | interpreterv3.py:177 | a new empty frame goes on top |
| Environments.EnvManager.Pop | interpreterv3.py:184 | the top frame is dropped, and popping with no frame is reported |
| Environments.EnvManager.BlockNest | interpreterv3.py:203 | a new empty scope goes on top of the current frame |
| Environments.EnvManager.BlockUnnest | interpreterv3.py:221 | the current frame's innermost scope is dropped, and a frame without a scope is reported |
| Environments.EnvManager.CreateNewSymbol | interpreterv3.py:357 | a name not yet in the target scope is added there, bound to a new void cell; an existing name is left alone and reported; a frame without a scope crashes |
| Environments.EnvManager.Set | interpreterv3.py:363 | `env_manager.set`, as `_define_var` and `_set_result` (line 526) call it: the name is rebound to the cell in the innermost scope that binds it; an unbound name is left alone |
| Environments.EnvManager.ImportMappings | interpreterv3.py:178 | the given bindings become the scope of the new frame |
| Functions.LambdaParams | interpreterv3.py:313-323 | every lambda parameter is one of the header's `name:type` tokens before the return type |
| Functions.LambdaParamsComplete | interpreterv3.py:314 | every `name:type` token before the return type becomes a parameter |
| Functions.LambdaParamsInOrder | interpreterv3.py:314 | a header `p1:t1 … pn:tn rt` has exactly the parameters `p1` … `pn`, in order |
| Functions.LambdaParamsExample | interpreterv3.py:314 | a header `x:int y:refint bool` has the parameters `x` and `y`, in order |
| Functions.FuncManager.constructor | interpreterv3.py:50 | the manager holds the function table and return types found in the program |
| Functions.FuncManager.CreateFunction | interpreterv3.py:158 | a function value bound to a name becomes that name's table entry; nothing else changes |
| Functions.FuncManager.SetLambda | interpreterv3.py:322 | the lambda slot holds the lambda's parameters, first body line and captured frame |
| Blocks.LeadingSpaces | interpreterv3.py:461-462 | the indentation of a line is the length of its leading run of spaces |
| Blocks.Indentation | interpreterv3.py:461-462 | one indentation per source line, each its leading spaces |
| Blocks.IfTarget | interpreterv3.py:208-217 | the line a false `if` goes to lies below the `if` and inside the program |
| Blocks.IfTargetFinds | interpreterv3.py:208-217 | a false `if` continues after the first `else` or `endif` at the `if`'s indentation below it, every line before it passed over; with neither it is a syntax error, never a crash |
| Blocks.FindIfTarget | interpreterv3.py:208-217 | the loop of `_if` finds exactly `IfTarget` |
| Blocks.EndIfTarget | interpreterv3.py:227-234 | the line `else` goes to lies below it and inside the program |
| Blocks.EndIfTargetFinds | interpreterv3.py:227-234 | `else` continues after the first `endif` at its indentation below it, none before it; with none it is a syntax error |
| Blocks.FindEndIf | interpreterv3.py:227-234 | the loop of `_else` finds exactly `EndIfTarget` |
| Blocks.ForwardScan | interpreterv3.py:270-281 | the line the forward scan finds lies at or below where it starts |
| Blocks.ForwardScanFinds | interpreterv3.py:270-281 | the closing `endwhile`/`endlambda` is the first line at the header's indentation that closes it, every line before it passed over; the end of the program or a line that dedents first is a syntax error; a crash happens only as written, at a blank line met first |
| Blocks.ForwardScanFound | interpreterv3.py:270-281 | a line found closes the block and every line before it is passed over |
| Blocks.ForwardScanBlank | interpreterv3.py:270-281 | a crash happens only when blank lines are not skipped, at a blank line reached first |
| Blocks.ForwardScanStops | interpreterv3.py:270-281 | a failure is a syntax error, at the end of the program or at the first line that dedents past the header |
| Blocks.ScanForward | interpreterv3.py:270-281 | the loop of `_exit_while` and `_exit_lambda` finds exactly `ForwardScan`: with `skipBlanks` false it raises at a blank line met first, as written; with it true it skips blank lines |
| Blocks.BackwardScan | interpreterv3.py:283-297 | the line the backward scan finds lies at or above where it starts |
| Blocks.BackwardScanFinds | interpreterv3.py:283-297 | `endwhile` goes back to the nearest `while` above it at its indentation, every line between passed over; the top of the program or a line that dedents first is a syntax error; a crash happens only as written, at a blank line met first |
| Blocks.BackwardScanFound | interpreterv3.py:283-297 | a line found opens the loop and every line between is passed over |
| Blocks.BackwardScanBlank | interpreterv3.py:283-297 | a crash happens only when blank lines are not skipped, at a blank line reached first |
| Blocks.BackwardScanStops | interpreterv3.py:283-297 | a failure is a syntax error, at the top of the program or at the nearest line that dedents past the `endwhile` |
| Blocks.ScanBackward | interpreterv3.py:283-297 | the loop of `_endwhile` finds exactly `BackwardScan`, as written (a blank line met first raises) or corrected, per `skipBlanks` |
| Blocks.ReturnTarget | interpreterv3.py:300-311 | `_lambda_or_func` classifies the enclosing body by the first `endfunc`/`endlambda` below, and never reports an error |
| Blocks.ReturnTargetFinds | interpreterv3.py:300-311 | the target is the first closing line below, with none before it; a crash means there is none, or, as written, a blank line comes first |
| Blocks.ReturnTargetFound | interpreterv3.py:300-311 | a target found is an `endfunc` (for `true`) or `endlambda` (for `false`) line with no closing line before it |
| Blocks.ReturnTargetMissing | interpreterv3.py:300-311 | a crash means no closing line follows, or blank lines are not skipped and one comes before the first closing line |
| Blocks.FindReturnTarget | interpreterv3.py:300-311 | the loop of `_lambda_or_func` finds exactly `ReturnTarget`, as written (a blank line met first raises) or corrected, per `skipBlanks` |
| Blocks.ExitWhileBlankLine | interpreterv3.py:270-281 | as written, a false `while` whose body has a blank line crashes |
| Blocks.ExitLambdaBlankLine | interpreterv3.py:340-351 | as written, skipping a lambda whose body has a blank line crashes |
| Blocks.EndWhileBlankLine | interpreterv3.py:283-297 | as written, `endwhile` below a blank line in the body crashes |
| Blocks.ReturnBlankLine | interpreterv3.py:300-311 | as written, `return` followed by a blank line crashes |
| Blocks.ForwardScanSkipsBlanks | interpreterv3.py:270-281 | wherever the as-written scan succeeds or reports an error, the corrected scan agrees with it |
| Blocks.BackwardScanSkipsBlanks | interpreterv3.py:283-297 | the same for the backward scan of `_endwhile` |
| Blocks.ReturnTargetSkipsBlanks | interpreterv3.py:300-311 | the same for the scan of `_lambda_or_func` |
| Engine.ParamScope | interpreterv3.py:147-159 | the first scope of a call binds exactly the parameter names, each to one of the argument cells |
| Engine.ParamScopeLast | interpreterv3.py:147-159 | a repeated parameter name denotes the cell of its last occurrence |
| Engine.ThisBinding | interpreterv3.py:169-172 | a call of `obj.method` whose `obj` is visible binds `this` to `obj`'s own cell; no other call adds a binding here (an invisible `obj` is a gap, see Left out) |
| Engine.BuiltinOf | interpreterv3.py:123-131 | a call is built in exactly when it names `print`, `input` or `strtoint` |
| Engine.DefineCheckOk | interpreterv3.py:353-363 | a declaration goes through exactly when the type is declarable and the names are distinct and new to the scope; a bad type is a type error; a repeated name is a name error |
| Engine.DefineCheckStep | interpreterv3.py:356-363 | a name that passes its check leaves the rest of the check to the remaining names, with that name taken |
| Engine.StatementOf | interpreterv3.py:69-95 | a line head is dispatched only as the statement keyword it spells |
| Engine.StatementOfComplete | interpreterv3.py:69-95 | every statement keyword is dispatched |
| Engine.Interpreter.constructor | interpreterv3.py:46-54 | `run`'s set-up: the indentation of every line, `ip` at `main`'s first line, an empty return stack, one empty frame |
| Engine.Interpreter.Advance | interpreterv3.py:391-393 | `ip` moves to the next line |
| Engine.Interpreter.PopReturn | interpreterv3.py:193 | execution resumes at the innermost return address, which is dropped |
| Engine.Interpreter.NestBlock | interpreterv3.py:215 | a new innermost scope in the current frame |
| Engine.Interpreter.Lookup | interpreterv3.py:474-502 | an operand resolves to a cell of the heap or a new value; its errors are name and type errors |
| Engine.Interpreter.LookupIn | interpreterv3.py:474-502 | the same against a given function table |
| Engine.Interpreter.FieldLookup | interpreterv3.py:483-492 | `obj.field` succeeds exactly when `obj` holds an object with that field, and yields the field's own cell; a void `obj` is a type error; a missing field, or a string not containing the field's name, is a name error; a missing variable crashes |
| Engine.Interpreter.NameLookup | interpreterv3.py:494-502 | a variable of the current frame, else a function value, else a name error |
| Engine.Interpreter.Items | interpreterv3.py:532-549 | each token becomes the evaluator item of what it resolves to |
| Engine.Interpreter.GetValue | interpreterv3.py:474-502 | `_get_value` returns the token's value: the variable's own cell for a variable, a new cell for a literal or function |
| Engine.Interpreter.ContentsOfStack | interpreterv3.py:532-549 | the stack's entries read as their values, in order |
| Engine.Interpreter.OperatorStep | interpreterv3.py:533-541 | a binary operator pushes a new cell built from the top two entries |
| Engine.Interpreter.BangStep | interpreterv3.py:542-546 | `!` pushes a new cell with the negation of the top entry |
| Engine.Interpreter.OperandStep | interpreterv3.py:547-549 | an operand pushes what `_get_value` yields |
| Engine.Interpreter.ScanStep | interpreterv3.py:532-549 | one token of the scan keeps every stack entry inside the heap |
| Engine.Interpreter.OperatorStepRuns | interpreterv3.py:533-541 | the operator step on cells is the evaluator's step on their values |
| Engine.Interpreter.BangStepRuns | interpreterv3.py:542-546 | the same for `!` |
| Engine.Interpreter.OperandStepRuns | interpreterv3.py:547-549 | an operand step pushes the looked-up entry itself, which is the evaluator's operand step |
| Engine.Interpreter.ScanStepRuns | interpreterv3.py:532-549 | every step of the scan on cells is the evaluator's step on the token's item |
| Engine.Interpreter.ScanFrom | interpreterv3.py:532-549 | the scan from the last token leftward keeps its stack inside the heap |
| Engine.Interpreter.ScanFromNext | interpreterv3.py:532-549 | the scan and the prefix run agree at a token whenever they agree after that token's step, or the step fails |
| Engine.Interpreter.ScanFromRuns | interpreterv3.py:532-549 | the scan on cells computes the evaluator's run over the reversed items |
| Engine.Interpreter.ScanOneOperand | interpreterv3.py:547-549 | a lone operand token leaves exactly its looked-up entry |
| Engine.Interpreter.ScanTokens | interpreterv3.py:530-549 | the loop of `_eval_expression` computes the scan |
| Engine.Interpreter.ScanEvaluates | interpreterv3.py:529-554 | the expression's value is the single entry the scan leaves |
| Engine.Interpreter.ScanAlias | interpreterv3.py:547-554 | an expression that is a single variable evaluates to that variable's own cell |
| Engine.Interpreter.EvalExpression | interpreterv3.py:529-554 | `_eval_expression` returns the evaluator's value of the expression, and for a lone variable its own cell |
| Engine.Interpreter.SetResult | interpreterv3.py:521-526 | the value is passed back in a new cell through the result variable of its type; a type without one, or a frame without a scope, crashes |
| Engine.Interpreter.NewSymbol | interpreterv3.py:357 | a name new to the target scope is declared there with a new cell; otherwise the frames are unchanged |
| Engine.Interpreter.SetVisible | interpreterv3.py:363 | the environment's `set` with a cell of the heap, as `_define_var` and `_set_result` (line 526) call it |
| Engine.Interpreter.DeepCopy | interpreterv3.py:166 | a new cell with the same tag and payload; an object gets a dictionary of its own with each field copied |
| Engine.Interpreter.Condition | interpreterv3.py:196-199 | an empty condition is a syntax error, a failed evaluation its error, otherwise the value; it changes neither the line, the return stack nor the frames, and it equals `CondOf` |
| Engine.Interpreter.If | interpreterv3.py:195-217 | per `CondOf`, the condition's outcome: a failure or a non-boolean is that error; true enters the block in a new scope; false goes past the `else` (entering it in a new scope) or the `endif` that `IfTarget` finds |
| Engine.Interpreter.SkipIf | interpreterv3.py:208-217 | a false `if` resumes after the `endif` that `IfTarget` finds, or enters the `else` branch in a new scope; with neither it is a syntax error |
| Engine.Interpreter.Else | interpreterv3.py:225-234 | the taken branch's scope is closed and execution goes past the matching `endif`, else a syntax error |
| Engine.Interpreter.EndIf | interpreterv3.py:219-222 | the block's scope is closed and execution goes on to the next line |
| Engine.Interpreter.While | interpreterv3.py:255-268 | per `CondOf`, the condition's outcome: a failure or a non-boolean is that error; true enters the body in a new scope; false goes past the `endwhile` that `ForwardScan` finds, scopes untouched |
| Engine.Interpreter.SkipWhile | interpreterv3.py:270-281 | a false `while` resumes after the `endwhile` that `ForwardScan` finds, scopes untouched; with none it is a syntax error |
| Engine.Interpreter.EndWhile | interpreterv3.py:283-297 | the body's scope is closed and execution goes back to the matching `while` line, else a syntax error |
| Engine.Interpreter.Passed | interpreterv3.py:185-192 | a value is passed back as given; with none, a `void` function passes nothing and others pass the default of their return type |
| Engine.Interpreter.DropFrame | interpreterv3.py:182-192 | the body's frame is dropped and the passed value goes to the caller's result variable in a new cell; it never fails |
| Engine.Interpreter.Unwind | interpreterv3.py:182-193 | the body's frame is dropped, the value goes to the caller's result variable in a new cell, and execution resumes at the popped return address |
| Engine.Interpreter.EndFunc | interpreterv3.py:180-193 | `endfunc` of `main` ends the run with nothing else changed; otherwise it unwinds to the caller |
| Engine.Interpreter.EndLambda | interpreterv3.py:328-338 | `endlambda` unwinds to the caller; with no caller it crashes |
| Engine.Interpreter.LambdaOrFunc | interpreterv3.py:300-311 | `return` leaves the body as `endfunc` or `endlambda` would, according to the first one below it |
| Engine.Interpreter.ReturnOf | interpreterv3.py:236-253 | a `void` function may not return a value; a returned value must have the declared type; a bare `return` passes nothing |
| Engine.Interpreter.ReturnValue | interpreterv3.py:236-253 | the first half of `_return` computes exactly `ReturnOf` |
| Engine.Interpreter.Return | interpreterv3.py:236-253 | a bad return is its error; otherwise the body is left with the returned value |
| Engine.Interpreter.BindLambda | interpreterv3.py:313-325 | the lambda, capturing the current frame, becomes the lambda slot's function and is passed back as a function value |
| Engine.Interpreter.Lambda | interpreterv3.py:313-326 | `_lambda` binds the lambda and then goes past the matching `endlambda`, else a syntax error |
| Engine.Interpreter.Printed | interpreterv3.py:368-375 | `print` outputs every argument's value in order; the first that does not resolve gives its error |
| Engine.Interpreter.PrintedStops | interpreterv3.py:368-375 | when `print` fails, it is with the error of the first argument that does not resolve, all before it resolving |
| Engine.Interpreter.PrintedFirst | interpreterv3.py:368-375 | the first argument is resolved before the rest, and its error ends the statement |
| Engine.Interpreter.Print | interpreterv3.py:368-375 | no arguments is a syntax error; otherwise the printed values |
| Engine.Interpreter.Input | interpreterv3.py:377-381 | the prompt is printed, and the next console line is consumed and passed back as a string |
| Engine.Interpreter.StrToInt | interpreterv3.py:383-389 | one string argument is converted and passed back as an int; another count is a syntax error and another type a type error |
| Engine.Interpreter.BindStep | interpreterv3.py:148-159 | an argument must have the parameter's type; a `ref` parameter shares the caller's cell and any other gets a copy |
| Engine.Interpreter.Binding | interpreterv3.py:147-159 | a call binds one argument per parameter, in order, stopping at the first error |
| Engine.Interpreter.BindingGood | interpreterv3.py:147-159 | every binding has its parameter's type and is a caller cell only for a `ref` parameter |
| Engine.Interpreter.BindOne | interpreterv3.py:148-159 | one turn of the binding loop computes `BindStep` |
| Engine.Interpreter.BindNext | interpreterv3.py:148-159 | one turn of the binding loop: its error is the whole binding's error, or its cell is bound as `BindStep` says and the rest binds under the table it leaves |
| Engine.Interpreter.BindingFrom | interpreterv3.py:147-159 | binding from one parameter on is that parameter's step followed by the binding of the rest |
| Engine.Interpreter.BindParams | interpreterv3.py:147-159 | the binding loop computes `Binding`, with a new cell for every copy |
| Engine.Interpreter.CopyCaptures | interpreterv3.py:161-166 | every captured variable is deep-copied into a new cell |
| Engine.Interpreter.CallExtras | interpreterv3.py:161-172 | the captures are copied and `this` is bound as `ThisBinding` says |
| Engine.Interpreter.CallScope | interpreterv3.py:147-172 | the first scope of a call holds the parameters, then the copied captures, then `this` |
| Engine.Interpreter.CreateNewEnvironment | interpreterv3.py:138-178 | an unknown name or a wrong argument count is a name error, a binding error is that error; otherwise a new frame holds exactly the call's first scope |
| Engine.Interpreter.EnterCallee | interpreterv3.py:147-178 | a binding error is that error; otherwise the call's scope (parameters, then copied captures, then `this`) is pushed as a frame of its own and the table is the one the binding leaves |
| Engine.Interpreter.PushCallFrame | interpreterv3.py:138-178 | the call's checks decide the outcome; on success the callee's frame sits on top of the caller's and the name is in the table |
| Engine.Interpreter.AssembleScope | interpreterv3.py:161-172 | the call's scope is the parameters, then fresh copies of the captures, then `this` |
| Engine.Interpreter.ResultBuiltin | interpreterv3.py:126-131 | `input` and `strtoint` change only the current frame |
| Engine.Interpreter.CallBuiltin | interpreterv3.py:123-131 | a built-in runs in place, then execution goes on to the next line; caller frames are unchanged |
| Engine.Interpreter.Jump | interpreterv3.py:133-135 | the return address is the line after the call, and execution goes to the function's first line |
| Engine.Interpreter.Call | interpreterv3.py:132-135 | a call either fails as `_create_new_environment` does, or pushes the return address and enters a new frame at the function's first line |
| Engine.Interpreter.FuncCall | interpreterv3.py:120-135 | no name is a syntax error; a built-in runs in place and goes on with the next line; any other name is a call that pushes the return address and a frame and continues at the function's start line |
| Engine.Interpreter.NewDefault | interpreterv3.py:363 | a new cell holding a deep copy of the type's default |
| Engine.Interpreter.DeclareOne | interpreterv3.py:356-363 | a name already in the innermost scope is a name error, a type without a default a type error; otherwise the name holds a new default cell |
| Engine.Interpreter.BindDefault | interpreterv3.py:363 | the declared name ends up bound to a new deep copy of its type's default |
| Engine.Interpreter.DeclareNext | interpreterv3.py:356-363 | one name of `_define_var`: a name already in the scope is a name error, a type without a default a type error; otherwise the name joins the scope with a new default cell and the remaining check is unchanged |
| Engine.Interpreter.DeclareNames | interpreterv3.py:356-363 | the loop of `_define_var` reports `DefineCheck` and on success declares every name with a new default cell |
| Engine.Interpreter.DefineVar | interpreterv3.py:353-366 | fewer than two tokens is a syntax error; otherwise the names are declared as `DeclareAll` says, and execution goes on to the next line |
| Engine.Interpreter.SetOutcome | interpreterv3.py:505-518 | `_set_value` fails, with a name error, exactly for a plain name that is not a variable; only a store into `o.f` can raise |
| Engine.Interpreter.SetVar | interpreterv3.py:505-518 | the variable's cell takes over the value; no other cell changes |
| Engine.Interpreter.SetField | interpreterv3.py:509-518 | the object's dictionary maps the field to the value's cell; no cell and no other dictionary changes |
| Engine.Interpreter.SetValue | interpreterv3.py:505-518 | a plain name takes over the value and `o.f` maps the field to the very cell given; a function value also becomes the table entry of that name; no other cell changes contents, and no dictionary but `o`'s changes |
| Engine.Interpreter.Register | interpreterv3.py:507-508 | a function value becomes the table entry of the assigned name (`create_function`), and the stored cell joins the heap |
| Engine.Interpreter.Store | interpreterv3.py:116-117 | `_set_value` then the next line: the variable takes the new contents, or `o`'s dictionary maps the field to the stored cell; no other cell or dictionary changes; a function value is also registered |
| Engine.Interpreter.AssignGuardTypes | interpreterv3.py:101-116 | an assignment's checks fail with a type error exactly on a type mismatch of the target |
| Engine.Interpreter.AssignValue | interpreterv3.py:101-116 | the first half of `_assign` yields the value to store, or the checks' error; an expression that is a lone variable or field yields that very cell |
| Engine.Interpreter.Assign | interpreterv3.py:101-118 | `_assign` fails as its checks do, else the target holds the expression's value and execution goes on to the next line; `o.f` becomes the stored cell itself (the expression's own cell for a lone variable); no other cell and no other dictionary changes; a function value also renames a function |
| Engine.Interpreter.Dispatch | interpreterv3.py:69-95 | each statement keyword has the effect `Stepped` states for it (its outcome and the new line, return stack and frames, as its handler makes them); only `endfunc` or `return` in `main` ends the run |
| Engine.Interpreter.ProcessLine | interpreterv3.py:60-96 | a line outside the program crashes; a blank line is skipped; an unknown statement crashes; any other line has its statement's `Stepped` effect; the run ends only at the end of `main` |
| Engine.Interpreter.RunLoop | interpreterv3.py:56-58 | the loop ends normally exactly when `terminate` is set, with one frame and no return address left |

## Left out

- Console output. `Print` returns the values `print` outputs. Their formatting with `str` and the call to `output` are not modelled. The trace output is left out too.
- Console input. It is the `input` field, a list of lines. Running out of input is modelled as a crash, because `get_input` is not part of this model.
- The tokenizer (`Tokenizer.tokenize_program`). The program arrives as token lines. A token is a keyword, a type name, an operator or a word. The keyword spellings in `InterpreterBase` are not part of this model: each keyword is a distinct token.
- The internals of the function manager. Finding the function headers is outside the model: the table and the return type of every line are given to `Functions.FuncManager.constructor`. `create_function` and `set_lambda` are modelled by their effect on the table.
- The internals of the environment manager. It is modelled by the effects its call sites rely on: frames of nested scopes, lookup from the innermost scope, `set` rebinding where the name is visible, and new names at the top of the frame or the current block.
- Engine.Interpreter.RunLoop: `run` loops until `terminate` is set, which may be never. The model takes a `fuel` bound and reports `OutOfFuel` when it is used up.
- Engine.Interpreter.ProcessLine: a negative `ip` is modelled as a crash, though Python would run a line counted from the end of the program. The case is reachable. The default `func` value starts at line -1 (line 403). A `func` variable that was never assigned is not in the function table, so calling it by name is the name error of lines 139-140, here as in the source. But `assign g f` with such an `f` registers `g` with that default in the function table (lines 507-508), and so does passing `f` to a `func` parameter that is not a reference (line 158). Calling `g`, or that parameter, then jumps to line -1 (line 135), and Python runs the program's last line, usually an `endfunc` that returns at once. Modelling it would make every statement handler accept Python's negative indices.
- Engine.ThisBinding: when `obj` is not visible in the caller, the source still binds `this`, to `None` (lines 169-172); the model adds no binding, because a scope here maps names to cells only. Reads agree: reading `this` or `this.f`, or assigning to it, fails as for an unbound name in both. Two outcomes differ. A callee's `var T this` is a name error in the source but succeeds here. And a lambda's captured `this` is replaced by `None` in the source but keeps the captured cell here. Such a call is reachable: `assign o.m f` in `main` registers the dotted name `o.m` (lines 507-508), and a function that cannot see `o` may then call `o.m`. `CallExtras`, `CallScope`, `AssembleScope` and `EnterCallee` inherit the gap through `ThisBinding`.
- Engine.Interpreter.DeepCopy: copies an object one level deep. Nested objects in fields get new cells that share their dictionaries, and the captures inside function values are not copied.
- Engine.Interpreter.DeclareNames: states that each new cell has the default's tag and payload shape (`Defaulted`), not the full deep-copy relation `IsDefault` that `NewDefault` states, because it would have to be preserved across later declarations.
- Engine.Interpreter.DefineVar: states `Defaulted`, as `DeclareNames` does.
- Engine.Interpreter.CreateNewEnvironment: states the names of the copied captures, not their contents. `CallScope` states the contents.
- Engine.Interpreter.Call: the error branches of `_find_first_instruction` (lines 464-471) are unreachable after `_create_new_environment` succeeds, because the function table only gains names. The model reads the start line from the table.
- Engine.Interpreter.StrToInt: the conversion accepts an optional `-` and ASCII digits. Python's `int` also accepts a `+` sign, surrounding whitespace, underscores and non-ASCII digits.
- Host-language exceptions (`IndexError`, `KeyError`, `AttributeError` and so on) are one `Crash` outcome, and their messages are not modelled.
- Strings are sequences of characters ordered by code point. There is no other encoding or Unicode behaviour.
- The blank-line scans of `_exit_while`, `_exit_lambda`, `_endwhile` and `_lambda_or_func` are used in their corrected form (see Findings). The loops and the scan functions take a `skipBlanks` flag; with it false they are the code as written, with the inputs that show the difference. The statements below use the corrected form, so where the program as written raises an `IndexError` at a blank line, they go on.
- Engine.Interpreter.While: a false condition skips the body with blank lines skipped; as written (line 274) a blank line before the `endwhile` raises.
- Engine.Interpreter.SkipWhile: skips blank lines; as written (line 274) a blank line before the `endwhile` raises.
- Engine.Interpreter.EndWhile: goes back to the `while` skipping blank lines; as written (line 289) a blank line in the body raises.
- Engine.Interpreter.LambdaOrFunc: looks for the end of the body skipping blank lines; as written (lines 304 and 307) a blank line after the `return` raises.
- Engine.Interpreter.Return: leaves the body as `LambdaOrFunc` does, skipping blank lines where the program as written raises.
- Engine.Interpreter.Lambda: skips to the `endlambda` skipping blank lines; as written (line 344) a blank line in the lambda's body raises.
- Engine.Interpreter.Dispatch: its `while`, `endwhile`, `return` and `lambda` cases use the corrected scans, as the handlers above do.
- Engine.Interpreter.ProcessLine: the same, through `Dispatch`.
- Literals.ParseInt: accepts an optional `-` followed by ASCII digits. Python's `isdigit` (line 479) also accepts other Unicode digits, which `int` reads, and `int` also accepts underscores between digits, so `-1_000` is -1000 in Python but raises here; a digit-led token with non-ASCII digits is looked up as a name here.

## Findings

| source | as written | input that shows it | evidently intended | confidence | as-written member | corrected member |
|---|---|---|---|---|---|---|
| interpreterv3.py:270-281 | `_exit_while` reads the first token of every line it passes, including blank lines | a `while` whose condition is false and whose body is a blank line: an index error | blank lines are skipped, as `_if` and `_else` skip them | high; not executed | Blocks.ExitWhileBlankLine | Blocks.ForwardScanSkipsBlanks |
| interpreterv3.py:340-351 | `_exit_lambda` reads the first token of every line it passes | a lambda whose body is a blank line: an index error | blank lines are skipped | high; not executed | Blocks.ExitLambdaBlankLine | Blocks.ForwardScanSkipsBlanks |
| interpreterv3.py:283-297 | `_endwhile` reads the first token of every line above it | `endwhile` below a blank line of its body: an index error | blank lines are skipped | high; not executed | Blocks.EndWhileBlankLine | Blocks.BackwardScanSkipsBlanks |
| interpreterv3.py:300-311 | `_lambda_or_func` reads the first token of every line below the `return` | `return` followed by a blank line before `endfunc`: an index error | blank lines are skipped | high; not executed | Blocks.ReturnBlankLine | Blocks.ReturnTargetSkipsBlanks |
