# CMinusMinus semantic actions and code generator, in Dafny

This project models the back end of the CMinusMinus compiler, which translates a small C-like language to MIPS assembly in a single pass. The parser calls one semantic action per grammar rule. Each action consults the scoped symbol table and allocates stack words from the code generator's offset cursor. It appends assembly lines to the body and string literals to the static-string pool.

The model keeps the source's four pieces of global state in one value, `Semantics.Ctx`:

- the symbol table;
- the code generator;
- the label counter of `newLabel`;
- the register index of `genCodeAddSPAndOffset`.

Each action is a pure function from a context to a new context and a result. An action that throws returns `Abort` with the error and the context at the throw point.

Modules, leaves first:

- `Wrappers`: `Option` and `Result`.
- `Errors`: the six errors the actions throw, with their exact messages.
- `Decimal`:
  - the decimal text `to_string` and `sprintf("%d")` produce;
  - `stoi`;
  - the round trips between them, on which the uniqueness of every generated name rests.
- `Declarators`: the two regular expressions of `varDecl` and `extractArrayInfo`, plus `isArray`.
- `Symbols`:
  - `Symbol`, with its name-only equality and hash;
  - a proof that a hash set of symbols under that equality behaves as a `map` from names to symbols.
- `SymbolTable`: active and retired scopes, `find` / `findAll` / `lookup`, and temporaries and string labels drawn from one counter.
- `CodeGenerator`:
  - the instruction datatype and the exact text of each line;
  - the offset cursor, the body and the pool;
  - the layout of the output file (prolog, body, postlog, static strings).
- `Semantics`: every function of parserUtils.cpp.
- `Programs`:
  - a run of actions in the order the parser issues them;
  - the invariants every run keeps: the body and the pool only grow, the cursor only moves down in whole words, and the counters only rise;
  - the first error ends the run.
- `Scenarios`: two complete programs followed action by action, with the exact code each emits:
  - `{ int x; x = 5; cout << x; }`;
  - `{ int x; int y; if (x > 0) { y = 1; } }`.

Several behaviours follow the code where a reader might expect otherwise:

- Labels (`labelN`) have their own counter in `newLabel`. It is separate from the counter of temporaries (`t#N`) and string labels (`str_N`).
- The cursor starts at 0, so the first variable sits at offset 0.
- `varDecl` moves the cursor before it checks for a redeclaration. A failed declaration has therefore already used its words.
- `insert` into a scope that already holds the name keeps the old entry.
- `leaveScope`, `insert`, `find` and `getTemp` call `back()` on the active list without checking it. The model requires an active scope wherever the source calls `back()`, rather than modelling an underflow error.
- The operand-type error of `genCodeExpr` and the assignment-type error of `genCodeAssignment` are different errors with different messages.

## Model

| member | source | states |
|---|---|---|
| Symbols.EqualityIsByName | SymbolTable/SymbolTable.h:20-46 | Two symbols are equal exactly when their names are equal: type, location and size are ignored. The hash of the name agrees with that equality. |
| Symbols.SetFind | SymbolTable/SymbolTable.cpp:98-102 | A probe by name finds nothing exactly when no element has that name. Otherwise it returns an element of the set with that name. |
| Symbols.AsScopeKeys | SymbolTable/SymbolTable.h:39-46 | The map view of a set files every entry under its own name and holds exactly the set's names. |
| Symbols.FindRefines | SymbolTable/SymbolTable.h:39-46 | On a set with unique names, finding in the set is finding in its map, so a scope can be modelled as a map. |
| Symbols.InsertRefines | SymbolTable/SymbolTable.cpp:72-75 | Set insertion keeps the names unique. It is map insertion that keeps an existing entry of the same name. |
| SymbolTable.EnterNewScope | SymbolTable/SymbolTable.cpp:59-62 | One empty scope is pushed innermost. Outer scopes, retired scopes and the counter are unchanged. |
| SymbolTable.LeaveScope | SymbolTable/SymbolTable.cpp:65-69 | The innermost scope is popped and appended, unchanged, to the retired list. The depth drops by one and the total number of scopes is kept. |
| SymbolTable.Insert | SymbolTable/SymbolTable.cpp:72-75 | Only the innermost scope changes. A name already present there leaves the table unchanged. |
| SymbolTable.Find | SymbolTable/SymbolTable.cpp:95-113 | Hits exactly when the innermost scope holds the name, and returns that entry. |
| SymbolTable.FindIn | SymbolTable/SymbolTable.cpp:116-129 | The search misses exactly when no scope holds the name. A hit is the entry of the innermost scope holding it: no scope further in holds the name. |
| SymbolTable.FindAllScan | SymbolTable/SymbolTable.cpp:116-129 | The reverse-iterator loop of `findAll` returns the innermost-first search result. |
| SymbolTable.Lookup | SymbolTable/SymbolTable.cpp:78-92 | Succeeds exactly when some active scope holds the name, with the symbol `findAll` returns. Otherwise it fails with "symbol not found". |
| SymbolTable.FindAgreesWithFindAll | SymbolTable/SymbolTable.cpp:78-88 | A hit of `find` is also what `findAll` returns, so `lookup` is `findAll` with an error. |
| SymbolTable.FindIgnoresOuterScopes | SymbolTable/SymbolTable.cpp:95-133 | A name only in an outer scope is missed by `find` but resolved by `findAll` and `lookup`. |
| SymbolTable.GenNameInjective | SymbolTable/SymbolTable.cpp:36-55 | `t#n` and `str_n` names are equal exactly when kind and counter value are equal. |
| SymbolTable.NextName | SymbolTable/SymbolTable.h:70-72 | A generated name uses the shared counter's current value, and the counter rises by exactly one. |
| SymbolTable.GetTemp | SymbolTable/SymbolTable.cpp:45-55 | The temporary is `t#n` for the current counter n. It is inserted into the innermost scope with its final fields, and the counter rises by one. |
| SymbolTable.GetStringLabel | SymbolTable/SymbolTable.cpp:36-44 | The label is `str_n` for the current counter n. It is inserted into the innermost scope, and the counter rises by one. |
| SymbolTable.GetTempFresh | SymbolTable/SymbolTable.cpp:45-55 | If no active scope holds a name the counter will still generate, `find` returns the new temporary, and that property is kept. |
| SymbolTable.GetStringLabelFresh | SymbolTable/SymbolTable.cpp:36-44 | The same for string labels. |
| SymbolTable.Draw | SymbolTable/SymbolTable.cpp:36-55 | Either generator draws the name for the current counter and advances the counter by one, keeping the active depth. |
| SymbolTable.GenerateNames | SymbolTable/SymbolTable.cpp:36-55 | A run of generator calls draws exactly the names for the counter values from the current one on, one per call, and advances the counter by the number of calls. |
| SymbolTable.GeneratedNamesAt | SymbolTable/SymbolTable.cpp:39-49 | In that list of names, the i-th is the name of its kind for counter value `n + i`. |
| SymbolTable.GenerateAt | SymbolTable/SymbolTable.cpp:36-55 | In a run of generator calls, the i-th call yields the name for counter value `counter + i`. |
| SymbolTable.GeneratedNamesDistinct | SymbolTable/SymbolTable.cpp:36-55 | N generator calls, in any mix of kinds, yield N pairwise distinct names and advance the counter by N. |
| SymbolTable.EnterThenLeave | SymbolTable/SymbolTable.cpp:59-69 | Entering a scope changes no resolution. Leaving it again restores the active list and retires one empty scope. |
| SymbolTable.BlockRestoresResolution | SymbolTable/SymbolTable.cpp:59-129 | Whatever a block declares, after `leaveScope` every name resolves as before the block. The block's scope is retired with its contents. |
| SymbolTable.InnerShadowsOuter | SymbolTable/SymbolTable.cpp:116-129 | A name inserted into a new innermost scope shadows every outer entry of that name for `findAll` and `lookup`. |
| SymbolTable.InsertThenFind | SymbolTable/SymbolTable.cpp:72-113 | After `insert`, `find` sees the new entry, or the older entry of that name. Every other name resolves as before, for both `find` and `findAll`. |
| SymbolTable.OperationsKeepWellFormed | SymbolTable/SymbolTable.cpp:59-75 | Enter, leave and insert keep every scope filed by name. |
| Decimal.NatToString | SymbolTable/SymbolTable.cpp:49 | `to_string` of a natural number is a canonical digit string with no superfluous leading zero. |
| Decimal.NatToStringValue | SymbolTable/SymbolTable.cpp:49 | Reading the text back gives the number. |
| Decimal.NatToStringInjective | SymbolTable/SymbolTable.cpp:39-49 | Two counter values have the same text exactly when they are equal. |
| Decimal.CanonicalRoundTrip | SyntaxAnalyzer/parserUtils.cpp:393-403 | Conversely, a canonical digit string is the text of its value. |
| Decimal.IntToString | SyntaxAnalyzer/parserUtils.cpp:89 | `to_string` of a negative offset is a minus sign followed by the text of its magnitude. |
| Decimal.Stoi | SyntaxAnalyzer/parserUtils.cpp:360-366 | `stoi` throws `invalid_argument` exactly when no digit follows the white space and an optional sign. |
| Decimal.StoiIntToString | SyntaxAnalyzer/parserUtils.cpp:362 | `stoi(to_string(k)) == k` for every integer k. |
| Decimal.IntToStringInjective | SyntaxAnalyzer/parserUtils.cpp:89 | Distinct offsets have distinct texts, sign included. |
| Declarators.FirstIndexOf | SyntaxAnalyzer/parserUtils.cpp:370 | `find('[')` returns the first position holding `[`, with no `[` before it. |
| Declarators.BaseName | SyntaxAnalyzer/parserUtils.cpp:369-371 | The stored name is the text before the first `[`, or the whole text when there is none. |
| Declarators.BracketGroup | SyntaxAnalyzer/parserUtils.cpp:351-357 | `.*\[(.*)\]` matches exactly the texts ending in `]` with a `[` before it. The group is the bracket-free text after the last such `[`. |
| Declarators.DeclRegexByGroup | SyntaxAnalyzer/parserUtils.cpp:393-399 | A whole match of `.*\[([1-9][0-9]*)\]`, over every split of the text, holds exactly when the bracket group is a positive decimal without a leading zero. |
| Declarators.ParseDeclarator | SyntaxAnalyzer/parserUtils.cpp:386-414 | A declarator is accepted exactly when it has no `[` or matches the regex. The size is the number, or 1 for a plain name, and the name is the text before the first `[`. A refusal is "invalid array declaration". |
| Declarators.DeclaratorRoundTrip | SyntaxAnalyzer/parserUtils.cpp:393-408 | `base[n]`, with n written in decimal, is accepted as name `base` and size n. |
| Declarators.DeclaratorShape | SyntaxAnalyzer/parserUtils.cpp:393-403 | Every accepted array declarator ends in `[n]` with n in canonical decimal: `a[0]` and `a[007]` are refused. |
| Declarators.ExtractArrayInfoAsWritten | SyntaxAnalyzer/parserUtils.cpp:350-375 | A name without `[`, or one that does not match `.*\[(.*)\]`, is kept whole with index 0. On a match the name is stripped to the text before the first `[`. A group that `stoi` accepts gives its value as the index. Any other group gives the sentinel −1 and becomes the identifier. The identifier is set only with −1. |
| Declarators.ParseReference | SyntaxAnalyzer/parserUtils.cpp:294-309 | A name without `[`, or one that does not match `.*\[(.*)\]`, is a plain reference to the whole name. A match is never plain. A literal subscript is the value `stoi` gives the bracket group. An identifier subscript is the group itself, which `stoi` refuses. Either way the base is the text before the first `[`. |
| Declarators.LiteralSubscriptRoundTrip | SyntaxAnalyzer/parserUtils.cpp:360-366 | `base[k]`, with k written by `to_string`, is read back as the literal k, for every integer k. |
| Declarators.IdentSubscriptRoundTrip | SyntaxAnalyzer/parserUtils.cpp:363-365 | `base[id]`, with a non-numeric `id`, is read back as an identifier subscript `id`. |
| Declarators.AsWrittenAgreesExceptMinusOne | SyntaxAnalyzer/parserUtils.cpp:303-309 | The sentinel reading and the corrected reading agree on every subscript except a literal −1. |
| Declarators.MinusOneSubscriptMisread | SyntaxAnalyzer/parserUtils.cpp:362-366 | `a[-1]` is read, as written, as an identifier subscript with the empty name. The corrected reading is the literal −1. |
| CodeGenerator.GetCurrOffsetAndUpdate | CodeGenerator/CodeGenerator.cpp:45-50 | Returns the cursor's prior value and lowers the cursor by exactly 4 bytes per word. Body and pool are unchanged. |
| CodeGenerator.GenCode | CodeGenerator/CodeGenerator.cpp:51-53 | Exactly one line is appended to the body, and nothing else changes. |
| CodeGenerator.GenCodeAll | CodeGenerator/CodeGenerator.cpp:51-53 | Consecutive `genCode` calls append their lines in order and change nothing else. |
| CodeGenerator.AddStaticString | CodeGenerator/CodeGenerator.cpp:54-56 | Exactly one entry `name: \t\t .asciiz lexeme` is appended to the pool. Earlier entries, body and cursor are kept. |
| CodeGenerator.OutputFile | CodeGenerator/CodeGenerator.cpp:22-44 | The file is the prolog, then the body lines in emission order, then the postlog, then the static strings in the order they were added. |
| CodeGenerator.GenCodeInFile | CodeGenerator/CodeGenerator.cpp:51-53 | An emitted line lands just before the postlog, and nothing else in the file moves. |
| CodeGenerator.StaticStringInFile | CodeGenerator/CodeGenerator.cpp:54-60 | An added string becomes the file's last line. |
| CodeGenerator.EmissionAndAllocationIndependent | CodeGenerator/CodeGenerator.cpp:45-56 | Emitting code or strings never moves the cursor, and allocating changes nothing in the file. |
| CodeGenerator.AllocateAt | CodeGenerator/CodeGenerator.cpp:45-50 | The i-th of a run of allocations returns the start offset minus 4 bytes for every word allocated before it. |
| CodeGenerator.AllocateFinal | CodeGenerator/CodeGenerator.cpp:45-50 | After a run of allocations the cursor is down 4 bytes per word allocated. Body and pool are untouched. |
| CodeGenerator.AllocationsDisjoint | CodeGenerator/CodeGenerator.cpp:45-50 | With positive sizes, the first offset is the cursor and each next offset is `off[i] − 4·size[i]`. Every later allocation lies wholly below every word of an earlier one. |
| Semantics.NewLabel | SyntaxAnalyzer/parserUtils.cpp:21-30 | `newLabel` yields `labeln` for its own counter n and then advances that counter by one. |
| Semantics.LabelNameInjective | SyntaxAnalyzer/parserUtils.cpp:21-30 | Two labels are equal exactly when their counter values are equal. |
| Semantics.LabelNotGenerated | SyntaxAnalyzer/parserUtils.cpp:26 | A code label never equals a temporary or string-label name. |
| Semantics.SuccessiveLabelsDistinct | SyntaxAnalyzer/parserUtils.cpp:21-30 | Two successive `newLabel` calls give different labels. |
| Semantics.GenBranchOnZeroAsWritten | SyntaxAnalyzer/parserUtils.cpp:33-40 | As written: `lw $t0, loc($sp)` for any record, then `beqz` to a fresh label, which it returns. |
| Semantics.GenBranchOnZero | SyntaxAnalyzer/parserUtils.cpp:33-40 | Corrected: exactly the record's address code (`move`/`lw`/`add` into the rotating register, when indirect), then `lw $t0` from the operand, then `beqz` to the fresh label. The rotation advances only for an indirect record. Table, cursor and pool are kept. |
| Semantics.BranchOnIndirectRecord | SyntaxAnalyzer/parserUtils.cpp:33-40 | The two versions agree on direct records. On an indirect record, the version as written tests the slot holding the element's offset from `$sp`, while the corrected one loads the element. |
| Semantics.GenBranchAndLabelTo | SyntaxAnalyzer/parserUtils.cpp:43-46 | Emits exactly `b branchTo` and `label:`. |
| Semantics.GenBranchAndLabel | SyntaxAnalyzer/parserUtils.cpp:49-55 | Emits `b <fresh>` and then `label:`, returning the fresh label. Table, cursor and register index are kept. |
| Semantics.GenLabelStmtNamed | SyntaxAnalyzer/parserUtils.cpp:56-62 | Emits the single line `label:` for a label of any length, returns the label, and changes nothing else. |
| Semantics.GenLabelStmt | SyntaxAnalyzer/parserUtils.cpp:63-66 | Places a fresh label and returns it. |
| Semantics.LabelBufferOverflow | SyntaxAnalyzer/parserUtils.cpp:21-62 | The `char[10]` buffers hold labels up to `label999` with colon and NUL, and up to `label9999` plain. From `label1000` on, `genLabelStmt` overflows, and from `label10000` on, so does `newLabel`. |
| Semantics.AddSPAndOffset | SyntaxAnalyzer/parserUtils.cpp:144-164 | Emits `move`/`lw`/`add` into the rotation register at the current index and returns it as `($tK)`. The index advances by one modulo 7. |
| Semantics.AddSPRunAt | SyntaxAnalyzer/parserUtils.cpp:144-164 | The i-th of consecutive calls uses `$t(3 + (index + i) mod 7)`. |
| Semantics.RegisterRotation | SyntaxAnalyzer/parserUtils.cpp:144-164 | Up to seven consecutive calls hand out pairwise different registers among `$t3`…`$t9`. After seven calls the index is back where it started. |
| Semantics.Operand | SyntaxAnalyzer/parserUtils.cpp:85-95 | A direct record is `loc($sp)` with no code. An indirect one emits `move $t0, $sp`, `lw $t1, loc($sp)` and `add $tK, $t0, $t1` for the current rotation register `$tK`, is used as `($tK)`, and moves the rotation one step. |
| Semantics.OperandPair | SyntaxAnalyzer/parserUtils.cpp:85-95 | Two records resolved in a row: the left one's address computation comes first, and the right one uses the next rotation register when the left one took one. |
| Semantics.OpCode | SyntaxAnalyzer/parserUtils.cpp:69-120 | One instruction for `<`, `>`, `+`, `-`, `=` and the pipe character, two for `*` `/`, three for `&` (logical AND), none for any other character. The last instruction writes `$t0`. |
| Semantics.ExprOP | SyntaxAnalyzer/parserUtils.cpp:81-122 | Appends exactly the address computations of the indirect operands (left first), `lw $t1` from the left operand, `lw $t2` from the right one, the operator's instructions and `sw $t0` into the temporary. The rotation moves once per indirect operand. Nothing else changes. |
| Semantics.OpCodeText | SyntaxAnalyzer/parserUtils.cpp:69-120 | The exact lines per operator: `slt`, `sgt`, `add`, `sub`, `seq`, `or` from `$t1`, `$t2` into `$t0`; `mult`/`div` followed by `mflo $t0`; for `&`, `sne $t3, $t1, $zero`, `sne $t4, $t2, $zero`, `and $t0, $t3, $t4`; nothing for any other character. |
| Semantics.ExprCodeText | SyntaxAnalyzer/parserUtils.cpp:97-121 | With two direct operands the lines are exactly `lw $t1, loc1($sp)`, `lw $t2, loc2($sp)`, the operator's lines and `sw $t0, temp($sp)`. |
| Semantics.GenNameHasNoBracket | SyntaxAnalyzer/parserUtils.cpp:138 | Generated names contain no `[`, so resolving a temporary never reads a subscript. |
| Semantics.GenCodeExpr | SyntaxAnalyzer/parserUtils.cpp:123-141 | Fails exactly when an operand is not int or char, with nothing done. Otherwise it allocates one word and one temporary at the old cursor and appends exactly the lines of `genCodeExprOP` for that slot. The result is a direct int record at that offset. |
| Semantics.CreateExpRec | SyntaxAnalyzer/parserUtils.cpp:272-289 | An int or char record gets one new word. A string record gets a new `str_n` label. Any other type gets neither. |
| Semantics.CreateExpRecForSymbol | SyntaxAnalyzer/parserUtils.cpp:290-342 | Fails exactly when the base, or an identifier subscript, is undeclared in every active scope. A plain or literal reference is a direct record `4k` bytes below the symbol, with no code. An identifier subscript allocates a temporary word, emits the six-line address computation and returns an indirect record. |
| Semantics.Resolve | SyntaxAnalyzer/parserUtils.cpp:301-340 | The lookups and record construction once the name is split, with the same failure condition. |
| Semantics.IndexedRecord | SyntaxAnalyzer/parserUtils.cpp:314-333 | The identifier-subscript branch: one temporary, one word, the index times four subtracted from the array offset and stored in the temporary, and an indirect record at it. |
| Semantics.GenCodeLitNum | SyntaxAnalyzer/parserUtils.cpp:262-271 | A new int word at the old cursor, loaded with the literal text by `li`/`sw`. The table is unchanged. |
| Semantics.GenCodeLitStr | SyntaxAnalyzer/parserUtils.cpp:252-260 | A new `str_n` label with one pool entry for the literal. No code is emitted and the cursor does not move. |
| Semantics.GenCodeAssignment | SyntaxAnalyzer/parserUtils.cpp:221-250 | Fails exactly when the types differ, except for an int value into a char target, with nothing done. Otherwise it appends exactly the target's address computation, then the value's, then `lw $t1` from the value and `sw $t1` into the target, for direct and indirect records alike. An indirect value uses the register after the target's. |
| Semantics.AssignCodeCases | SyntaxAnalyzer/parserUtils.cpp:233-249 | The lines of an assignment for each of the four direct/indirect combinations of target and value. |
| Semantics.AssignmentCoercion | SyntaxAnalyzer/parserUtils.cpp:225-231 | int into char succeeds. char into int and a string into int or char fail. |
| Semantics.GenCodeCin | SyntaxAnalyzer/parserUtils.cpp:166-186 | Fails exactly when the reference does not resolve. For int it reads with service 5, for char with service 12, then `sw $v0` into the resolved target. Any other type gets no syscall. |
| Semantics.GenCodeEndl | SyntaxAnalyzer/parserUtils.cpp:188-192 | Emits exactly `li $a0, '\n'`, `li $v0, 11`, `syscall`. |
| Semantics.CoutLoad | SyntaxAnalyzer/parserUtils.cpp:195-217 | The part of `genCodeCout` before its `syscall`: the address computation of an indirect record, then `lw $a0` from the record's operand and the print service (1 for int, 11 for char), or `la $a0, label` and service 4 for a direct string, or nothing for any other direct record. |
| Semantics.GenCodeCout | SyntaxAnalyzer/parserUtils.cpp:194-219 | The appended code ends with exactly one `syscall`, preceded by the service number of the record's type. A direct int or char is exactly `lw $a0, loc($sp)`, the service and `syscall`. An indirect record gets its address computation and `lw $a0` through its rotation register. Any other direct record gets only `syscall`. |
| Semantics.CoutShape | SyntaxAnalyzer/parserUtils.cpp:194-219 | The appended lines of `genCodeCout`, case by case, with the single `syscall` last. |
| Semantics.VarDecl | SyntaxAnalyzer/parserUtils.cpp:380-437 | A type other than int or char fails, and so does an invalid declarator. Otherwise the cursor moves down by the size first. The declaration then fails exactly when the base name is already in the innermost scope, and on success the symbol is inserted at the old cursor. |
| Semantics.EnterBlock | SyntaxAnalyzer/parserUtils.cpp:441-443 | Opens an empty innermost scope. |
| Semantics.ExitBlock | SyntaxAnalyzer/parserUtils.cpp:438-440 | Drops the innermost scope from the active list. |
| Semantics.DeclareThenReference | SyntaxAnalyzer/parserUtils.cpp:416-436 | After a declaration, `lookup` and a reference to the name give the symbol at the old cursor, with the declared type and size. |
| Semantics.RedeclarationFails | SyntaxAnalyzer/parserUtils.cpp:431-434 | Declaring the same name twice in one scope fails the second time with "symbol already exists". |
| Semantics.ShadowingInNewBlock | SyntaxAnalyzer/parserUtils.cpp:431-436 | In a new block any accepted declaration succeeds, whatever outer scopes hold. |
| Semantics.DeclareInFreshBlock | SyntaxAnalyzer/parserUtils.cpp:416-436 | The first declaration of a block succeeds into a scope of its own, at the old cursor, and moves the cursor by its size. |
| Semantics.BlockRetiresDeclaration | SyntaxAnalyzer/parserUtils.cpp:380-443 | A block holding one declaration retires exactly that symbol when it closes, restores the active scopes, and leaves the cursor moved by the symbol's size. |
| Semantics.DeclarationVisibleInBlock | SyntaxAnalyzer/parserUtils.cpp:380-443 | The first declaration of a new block is what `lookup` then finds under its name, whatever outer scopes hold. |
| Semantics.SequentialBlocksKeepApart | SyntaxAnalyzer/parserUtils.cpp:380-443 | Two blocks in a row may both declare the same name. The first symbol is retired with its block. The second is a different symbol below the first's words and resolves on its own. |
| Semantics.LiteralSubscriptInBounds | SyntaxAnalyzer/parserUtils.cpp:334-340 | For `0 <= k < size`, `arr[k]` is a direct record within the array's words, with no code emitted. |
| Programs.Apply | SyntaxAnalyzer/parserUtils.h:11-29 | After each callback the number of active scopes is one more for `enterBlock`, one less for `exitBlock`, and unchanged otherwise. |
| Programs.ApplyFlow | SyntaxAnalyzer/parserUtils.h:11-29 | The branch, label, `cin`, `cout` and `endl` callbacks never open or close a scope: the number of active scopes is unchanged. |
| Programs.ApplyGrows | CodeGenerator/CodeGenerator.cpp:45-56 | Every callback only moves the state forward: body and pool extend, the cursor moves down in whole words, the counters rise and retired scopes stay. A callback that throws has emitted nothing, pooled nothing and left the table as it was. |
| Programs.RunGrows | CodeGenerator/CodeGenerator.cpp:45-56 | The same holds over any run, complete or stopped by an error. |
| Programs.RunFromStart | CodeGenerator/CodeGenerator.cpp:7-50 | From the start state the cursor stays a non-positive multiple of four, whether the run completes or stops at an error. |
| Programs.ErrorStopsOutput | SyntaxAnalyzer/parserUtils.h:11-29 | A run that throws at its k-th callback fails with that error, and its body is exactly the body after the first k callbacks. |
| Programs.RunOfSteps | SyntaxAnalyzer/parserUtils.h:11-29 | When each callback takes the state the previous one left to the next, the run ends in the last state with the callbacks' results in order. |
| Scenarios.AssignAndPrint | SyntaxAnalyzer/parserUtils.cpp:194-271 | `{ int x; x = 5; cout << x; }` runs to completion with `x` at offset 0 and 5 in the next word. The body text is exactly `li $t0, 5` … `syscall` with print service 1, and the block is retired holding `x`. |
| Scenarios.Conditional | SyntaxAnalyzer/parserUtils.cpp:21-141 | `{ int x; int y; if (x > 0) { y = 1; } }` runs to completion. The comparison lands in `t#0`, `beqz` jumps to `label0`, which is placed after the inner block, and the exact body and retired scopes are given. |

## Left out

- Opening and closing the output stream, and the exception when it cannot be opened (`CodeGenerator` constructor and destructor). The file is modelled as its list of lines, `CodeGenerator.OutputFile`.
- `VERBOSE` tracing and `SymbolTable::display`: console output only.
- Memory management: the destructor frees only retired scopes, and the probe symbols that `lookup`, `find` and `findAll` allocate are leaked. Values replace pointers throughout.
- `lookup`, `find` and `findAll` come in overloads taking a `Symbol *` and taking a name. Both are modelled by the name-taking function, since every overload compares names only.
- The `std::regex` engine. Both patterns are modelled by their meaning on the text, with `.` matching every character; ECMAScript's `.` does not match a line terminator, and names never contain one.
- Decimal.Stoi: the `out_of_range` exception for numbers beyond 32 bits is not modelled; every digit string has its mathematical value.
- `int` wrap-around: the cursor, the name counter and the label counter are unbounded integers. The source's 32-bit `int` would wrap after about 500 million words or 2^31 names.
- Semantics.Resolve: the offset of a literal-subscript reference, `loc - 4k` (parserUtils.cpp:339), is an unbounded integer. In the source, `index * 4` and the subtraction are 32-bit `int` arithmetic, which overflows, and in practice wraps, once |k| reaches 2^29. An example is `a[600000000]`. The model returns `loc - 2400000000` there. While `4k` and `loc - 4k` both fit in 32 bits, the two agree. That includes every in-bounds subscript (`Semantics.LiteralSubscriptInBounds`) of an array the 32-bit cursor can hold.
- Semantics.CreateExpRecForSymbol: inherits from `Semantics.Resolve` the unbounded offset `loc - 4k` for a literal subscript with |k| ≥ 2^29, where the source's 32-bit arithmetic wraps.
- What the emitted MIPS code computes at run time. The model fixes which instructions are emitted and their exact text, not their execution.
- `genCodeAssignment(string, ExpressionRecord *)` is declared in parserUtils.h, but no definition of it is part of this model.
- Fields the source never sets get fixed values:
  - the type of the temporary for an identifier subscript, and of a string label, is `'\0'`;
  - the location of a string record, and of a string label, is 0;
  - the size of a temporary is 0;
  - the identifier of a plain reference is "".
- Semantics.GenCodeAssignment: the source changes the value record's type to `char` in the caller's memory when it accepts an int into a char. The model returns no changed record, since the parser discards the record after the assignment.
- Semantics.GenCodeExpr: the returned record and the new temporary's visibility are stated only on a table where no active scope already holds a name the counter will generate (`SymbolTable.Fresh`). A program that itself declares a generated name such as `str_0` breaks that property, and the model leaves the record unstated in that case.
- Programs.ApplyGrows: `Grows` constrains the body, the pool, the cursor, the counters and the retired scopes. It says nothing about the active scopes, which an action may push, pop or extend.
- The `char[10]` label buffers are modelled as unbounded strings; their overflow is shown as a finding.
- Semantics.CreateExpRecForSymbol: reads subscripts with the corrected `Declarators.ParseReference`. So `a[-1]` gives a direct record at `loc + 4`, where the source reads index −1 as an identifier subscript, looks up the empty name and fails with "symbol not found". On every other reference the two readings agree (`Declarators.AsWrittenAgreesExceptMinusOne`).
- Semantics.GenCodeCin: resolves its operand through `Semantics.CreateExpRecForSymbol`, so `cin >> a[-1]` succeeds where the source fails with "symbol not found".
- Programs.Apply: runs the corrected members. A `Reference` or `Cin` callback on `a[-1]` succeeds where the source fails, as above. A `BranchOnZero` callback on an indirect record dereferences the element, where the source tests the slot at `loc($sp)` (`Semantics.BranchOnIndirectRecord`). On direct records and every other subscript, the result is the source's.

## Findings

| source | as written | input that shows it | evidently intended | confidence | as-written member | corrected member |
|---|---|---|---|---|---|---|
| SyntaxAnalyzer/parserUtils.cpp:362-366 | `extractArrayInfo` reports an identifier subscript by setting the index to −1, and `createExpRecForSymbol` tests `index == -1`. A literal subscript of −1 is therefore read as an identifier subscript, with an empty identifier. | the reference `a[-1]`, which then fails with "symbol not found" on the empty name | a literal −1 is a literal subscript, like every other number `stoi` accepts | low (whether the grammar lets a negative literal reach a subscript is outside this model); not executed | Declarators.MinusOneSubscriptMisread | Declarators.LiteralSubscriptRoundTrip |
| SyntaxAnalyzer/parserUtils.cpp:33-40 | `genBranchOnZero` loads `er->loc($sp)` for every record. For an indirect record, that slot holds the element's offset from `$sp` (`symbol->loc - 4*index`, parserUtils.cpp:323-333), not its value. | `if (a[i])`: the branch tests the element's frame offset instead of `a[i]`, so its outcome depends on where the element lies and never on its value; with `int a[3]` as the first declaration (offset 0) and `i == 0`, `beqz` always jumps past the then-branch, whatever `a[0]` holds | the condition is dereferenced as every other consumer does: `genCodeExprOP`, `genCodeAssignment`, `genCodeCout` | medium (the grammar may always wrap a condition into a comparison temporary); not executed | Semantics.BranchOnIndirectRecord | Semantics.GenBranchOnZero |
| SyntaxAnalyzer/parserUtils.cpp:56-62 | `genLabelStmt` copies the label plus `:` plus NUL into `char[10]`; `newLabel` writes the label plus NUL into `char[10]` | the 1001st label, `label1000`, whose statement needs 11 characters; from `label10000`, `newLabel` itself overflows | the label line is written whole for every label | high; not executed | Semantics.LabelBufferOverflow | Semantics.GenLabelStmtNamed |

The rest of the model uses the corrected members: `Programs.Apply` resolves references with `Declarators.ParseReference`, branches with `Semantics.GenBranchOnZero`, and treats labels as unbounded strings.
