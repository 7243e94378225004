# luaparse-codegen in Dafny

luaparse-codegen compiles a Lua syntax tree, as produced by luaparse, into
code for a register machine. The code is a buffer of instructions, each an
opcode and an operand array, plus a constant pool. The compiler walks the
tree once and keeps its state in module-level variables:

- the instruction buffer `ir`;
- the constant pool `constants`;
- a register counter;
- a tree of `Scope` objects that maps local names to registers;
- `compilerLabel` objects, which are bound to instruction positions and read only when the program is printed.

At the end the compiler prints one line per instruction and one line per
constant. `src/scope.js` is a standalone demonstration of the same `Scope`
class. `src/postprocess.js` is a tree pass that the compiler does not call.

This project models that core:

- **Values** (values.dfy): the constants and JavaScript's loose equality `==` on them, with strings converted to numbers only when they spell a decimal integer. `getConstant` uses that equality to find an existing pool entry.
- **Scopes** (scopes.dfy): `Scope.get` and `Scope.set` over a table of frames. A scope is an index into the table, and `top` is an older index.
- **Bytecode** (bytecode.dfy): the opcodes, the operands, the result records and `compilerLabel`.
- **CompileState** (compile_state.dfy): the compiler state and its primitive operations (`allocateRegister`, `emit`, `getConstant`, `createScope`, labels), plus the invariant every reachable state satisfies.
- **Ast** (ast.dfy): the syntax-tree nodes.
- **Lowering** (lowering.dfy): every `compile*` rule of src/index.js as a function that threads the state explicitly. A JavaScript exception is a `Fail` outcome.
- **LoweringInvariant**, **LoweringLemmas**, **IfLemmas**, **TableLemmas** and **StatementLemmas**: what the rules preserve and what code each rule emits. IfLemmas covers `if` statements with any list of clauses, and TableLemmas covers the field loop of a table constructor.
- **Codegen** (codegen.dfy): the compiler as the source writes it, an object whose fields are updated in place. The `Compiler` class has `ir`, `constants`, `registers`, `labels` and `scopes` fields, one method per source function, and loops where the source has `forEach`/`for … in`. Each method is proved to end exactly as the corresponding Lowering function says.
- **Disassembly** (disassembly.dfy): the text of `printInstruction` and `printConstants`.
- **ScopeDemo** (scope_demo.dfy): src/scope.js, with the module-level current scope as a class field.
- **Postprocess** (postprocess.dfy): src/postprocess.js.

Where the code's behaviour is surprising, the model follows the code:

- A `while` condition is compiled once, before the body. The closing `JUMPIF` tests the register that was computed then.
- `Scope.set` of a name already visible hands the write to `top`. The scope that binds the name never sees the new value, and at the root the call throws.
- Under an assignment, table-constructor, member-expression or `local` parent, an identifier yields only its constant. So `x = y` emits `SETVAR` with an undefined register.
- `x = y` where `y` is bound in scope reaches a `SCOPESET` branch that reads `variable` before its `const` declaration. That is a temporal-dead-zone error.
- A call allocates its result register after the callee and before the arguments.
- `elseif` clauses are never compiled. After an `elseif`, the else label is never rebound: it stays on the instruction just before its own jump.
- `break` with a null parent throws. `break` inside an `if` at top level jumps to an undefined label.

## Model

| member | source | states |
|---|---|---|
| Values.LooseEqSameKind | src/index.js:81 | between two constants of the same kind, the pool's `==` is plain equality |
| Values.IntTextLooselyEqualsNumber | src/index.js:81 | the decimal text of every integer converts back to it, so the string "5" and the number 5 share one pool entry |
| Values.NatTextValue | src/index.js:417 | the decimal text a template literal prints for a natural number denotes that number |
| Values.LooseEqNotTransitive | src/index.js:81 | the pool's `==` is not transitive: "01" == 1 and 1 == "1", but "01" != "1" |
| Values.WideSpacesAreTrimmed | src/index.js:81 | Unicode space separators beyond ASCII are trimmed before conversion, as JavaScript does: 5 equals "\u30005" (ideographic space) and " 5\u2003" (em space) |
| Values.LooseEqCoercions | src/index.js:81 | booleans compare as 0/1 and blank strings as 0; "x" equals neither 0 nor false |
| Scopes.Chain | src/index.js:18-23 | the frames a lookup visits: starts at the scope, follows `top` links, ends at a root |
| Scopes.Set | src/index.js:25-30 | a successful `set` changes no `top` link and no frame newer than the one it starts from; a truthy lookup leaves the starting frame itself unchanged |
| Scopes.TruthyGetIffBinder | src/index.js:18-23 | `get` is truthy exactly when some frame on the chain holds a truthy own entry (both directions) |
| Scopes.GetIsNearestBinding | src/index.js:18-23 | `get` returns the entry of the nearest frame on the chain with a truthy entry, or the root's own entry when there is none; falsy entries are skipped |
| Scopes.SetFailsIffRootBinds | src/index.js:25-30 | `set` throws exactly when the root of the chain holds a truthy entry for the key |
| Scopes.SetWritesAboveOutermostBinder | src/index.js:25-30 | a successful `set` writes into the frame just above the outermost frame binding the key (the scope itself when none does) and changes no other frame |
| Scopes.StaleReadAfterRedefinition | src/index.js:25-30 | after `set` of a key the scope already binds truthily, `get` there still returns the old value |
| Scopes.SetScope | src/index.js:25-30 | the loop form of `set` (walk up while the lookup is truthy, throw at a root, else write) yields exactly `Set` |
| Bytecode.CodeRoundTrip | src/index.js:33-58 | every opcode's code lies in 1..24 and maps back to that opcode |
| Bytecode.CodeInjective | src/index.js:33-58 | no two opcodes share a code |
| Bytecode.OpcodeOfRoundTrip | src/index.js:33-58 | every code in 1..24 names an opcode with that code |
| CompileState.InitialInv | src/index.js:60-67 | the initial state (main scope, register 1, `NEWSCOPE [1]`) satisfies the invariant |
| CompileState.AllocOk | src/index.js:69-73 | allocation returns the counter plus one, which becomes the counter; the labels stay and the invariant holds |
| CompileState.EmitOk | src/index.js:75-77 | appending an instruction whose operands exist keeps the invariant, only extends the state and moves no label |
| CompileState.FindFirst | src/index.js:81 | the scan's answer, when any, is an index of the searched part of the pool |
| CompileState.FindFirstSpec | src/index.js:81 | the scan finds the first loosely equal entry, and none exactly when no entry is loosely equal |
| CompileState.InternFindsFirst | src/index.js:80-88 | `getConstant` returns the first loosely equal index and changes nothing; otherwise it appends the value and returns the old length; only the pool changes |
| CompileState.InternIdempotent | src/index.js:80-88 | a second `getConstant` of the same value returns the same index and leaves the pool unchanged |
| CompileState.InternOk | src/index.js:80-88 | interning keeps the invariant; the pool only grows and never holds two loosely equal values |
| CompileState.NewLabelOk | src/index.js:312-315 | a new label keeps the invariant and is bound to the last instruction |
| CompileState.UpdateLabelOk | src/index.js:317-320 | rebinding a label keeps the invariant and moves no other label |
| CompileState.CreateScopeOk | src/index.js:90-98 | `createScope` takes one fresh register, emits `NEWSCOPE [register, parentRegister]` and adds a frame whose `top` is the parent's frame |
| CompileState.StoreOk | src/index.js:25-30 | a successful `set` changes only the scope table, keeps its shape and keeps the invariant |
| CompileState.ResolveInRange | src/index.js:322-324 | every label resolves to the index of an existing instruction |
| LoweringLemmas.LastUpdateWins | src/index.js:317-324 | after `update()`, compiling any further statements leaves the label resolving to the instruction that was last at the update; a later `update()` makes only the later position count |
| LoweringInvariant.NodeOk | src/index.js:127-161 | from a valid state `compileNode` either throws or keeps the invariant, only extends the state, keeps every existing label's binding and returns registers and constants that exist |
| LoweringInvariant.NodesOk | src/index.js:163-165 | the same for `compileNodes` |
| LoweringInvariant.IdentifierOk | src/index.js:199-215 | the same for `compileIdentifier` |
| LoweringInvariant.LiteralOk | src/index.js:358-369 | the same for `compileLiteral`, which never throws or moves a label |
| LoweringInvariant.BreakOk | src/index.js:217-219 | the same for `compileBreakStatement` |
| LoweringInvariant.BinaryOk | src/index.js:225-251 | the same for `compileBinaryExpression` |
| LoweringInvariant.TableOk | src/index.js:167-197 | the same for `compileTableExpression` |
| LoweringInvariant.FieldsOk | src/index.js:171-191 | the same for the loop over the fields |
| LoweringInvariant.CallOk | src/index.js:337-352 | the same for `compileCallExpression` |
| LoweringInvariant.ArgsFromOk | src/index.js:343-346 | the argument loop keeps the invariant and returns valid argument operands |
| LoweringInvariant.WhileOk | src/index.js:301-309 | the same for `compileWhileStatement` |
| LoweringInvariant.IfOk | src/index.js:253-299 | the same for `compileIfStatement`, whose labels are all new |
| LoweringInvariant.TestsOk | src/index.js:258-275 | pass 1 keeps the invariant and creates only new labels |
| LoweringInvariant.BodiesOk | src/index.js:279-296 | pass 2 keeps the invariant and rebinds only the if statement's own labels |
| LoweringInvariant.GetTableOk | src/index.js:100-125 | the same for `getTableFromMemberExpression` |
| LoweringInvariant.AssignFromOk | src/index.js:372-395 | the same for `compileAssignmentStatement` |
| LoweringInvariant.LocalFromOk | src/index.js:397-409 | the same for `compileLocalStatement` |
| LoweringInvariant.ChunkOk | src/index.js:461-465 | a whole chunk either throws or ends in a valid state that extends the initial one, so `NEWSCOPE [1]` stays the first instruction |
| LoweringLemmas.IdentifierShape | src/index.js:199-215 | under an assignment, table, member or local parent an identifier yields only its name's constant; otherwise one fresh register and one instruction, SCOPEGET when the scope chain binds the name truthily and GETVAR otherwise |
| LoweringLemmas.IdentifierNullParent | src/index.js:202 | an identifier with a null parent throws |
| LoweringLemmas.LiteralShape | src/index.js:358-369 | a literal takes one fresh register, then SETNIL for nil or LOAD of the interned value |
| LoweringLemmas.BinaryShape | src/index.js:225-251 | left operand, then right, then the result register; a known operator emits one `[left, right, result]` instruction and throws on an undefined side; an unknown operator emits nothing |
| LoweringLemmas.KnownOperators | src/index.js:230-244 | exactly the seven operators + - / * ^ % == have an opcode, each one of the seven binary opcodes |
| LoweringLemmas.CallShape | src/index.js:337-352 | the callee first, then the result register, then the arguments, then one `CALL [function, arguments, result]`; an undefined callee throws before anything else |
| LoweringLemmas.ArgsCount | src/index.js:343-346 | the argument loop adds one operand per argument after the ones it starts with, which it keeps |
| LoweringLemmas.ArgsOperands | src/index.js:342-346 | the argument array of `f(a0, …, an)` has one operand per argument, and operand j is the register argument j compiled to, in the state the arguments before it left |
| TableLemmas.TableFieldsShape | src/index.js:167-197 | a table takes one fresh register `t`, emits `NEWTABLE [t]` first and returns `t`; then field by field, in order, each field's code follows the previous field's: `name = value` interns the key without code, compiles the value and appends `SETTABLEK [t, k, value register]` with `k` naming the key; `[key] = value` compiles key and value and appends `SETTABLE [t, key register, value register]`; a positional value compiles it and appends `PUSHTABLE [t, value register]` |
| TableLemmas.FieldStepShape | src/index.js:171-191 | one field appends code whose last instruction is its store into the table register, with the key's constant for `name = value` |
| TableLemmas.FieldStepExact | src/index.js:171-191 | one field's code: its key (when it has one) and value compiled in order, then SETTABLEK, SETTABLE or PUSHTABLE into the table register with the key's constant or register and the value's register |
| LoweringLemmas.ResultRegisterIsFresh | src/index.js:127-161 | a value-producing rule returns a register allocated during the rule, above every earlier register |
| LoweringLemmas.BreakShape | src/index.js:217-219 | `break` emits one JUMP to the parent's break label, or to undefined; with a null parent it throws |
| LoweringLemmas.UnhandledEmitsNothing | src/index.js:127-161 | a node type without a rule returns undefined and leaves the state unchanged |
| LoweringLemmas.WhileDispatch | src/index.js:144-146 | a while statement is compiled in a new scope whose parent is the node's scope |
| LoweringLemmas.WhileShape | src/index.js:301-309 | condition once, labels, body, then `JUMPIF [cond, loop]`; the loop label stays at the condition's last instruction and the break label ends on the JUMPIF |
| LoweringLemmas.BreakLeavesLoop | src/index.js:301-309 | in `while c do break end` the break jumps to the label that resolves to the loop's JUMPIF |
| LoweringLemmas.SingleStatement | src/index.js:163-165 | a body of one statement compiles as that statement |
| LoweringLemmas.IfDispatch | src/index.js:151-153 | an if statement is compiled in a new scope whose parent is the node's scope and returns undefined |
| LoweringLemmas.IfThenShape | src/index.js:253-299 | for the one-clause `if c then b end`, the whole code: labels, condition, `JUMPIF [c, clause]`, `JUMP [end]`, body, `JUMP [end]`; the clause label ends on the first JUMP and the end label on the second (any clause list: IfLemmas.IfShape) |
| IfLemmas.IfShape | src/index.js:253-299 | for any clause list: in pass 1, clause by clause, an if clause creates a label and emits its condition's code and `JUMPIF [condition, label]`, an else clause creates a label and emits `JUMP [label]`, and an elseif emits nothing; pass 1 creates one label per non-elseif clause, in increasing order after the end label, and is followed by `JUMP [end]`; in pass 2 each clause's code follows the previous clause's, a rebound clause label lands on the instruction just before that clause's body, each if clause's code ends with `JUMP [end]`, and the end label resolves to the last instruction |
| IfLemmas.TestsLabels | src/index.js:258-276 | pass 1 creates exactly one label per if or else clause, none for an elseif, with increasing identifiers |
| IfLemmas.TestStepShape | src/index.js:258-276 | pass 1 on one clause: an if clause creates a label, compiles its condition and appends `JUMPIF [condition register, label]`; an else clause creates a label and appends `JUMP [label]`; an elseif does nothing; only an if clause can throw |
| IfLemmas.IfElseTests | src/index.js:258-277 | pass 1 of `if c then b1 else b2 end`: the if label, the condition's code, `JUMPIF [c, if label]`, the else label and `JUMP [else label]`; a condition that throws or is undefined makes pass 1 throw |
| IfLemmas.BodyStepShape | src/index.js:280-296 | one clause of pass 2: an elseif changes nothing; an if or else clause rebinds its label to the last instruction before its body; an if clause ends with `JUMP [end]` |
| IfLemmas.IfElseLanding | src/index.js:253-299 | in `if c then b1 else b2 end` pass 1 is the condition's code, `JUMPIF [c, if label]` and `JUMP [else label]`; the if label lands on pass 1's final `JUMP [end]`, the else label lands after it on the if body's closing `JUMP [end]`, and the end label on the last instruction |
| LoweringLemmas.SingleIfTests | src/index.js:258-267 | pass 1 over one IfClause: its label, its condition, one JUMPIF |
| LoweringLemmas.SingleIfBodies | src/index.js:282-288 | pass 2 over one IfClause: its label rebound, its body, `JUMP [end]` |
| LoweringLemmas.IfIgnoresElseif | src/index.js:258-296 | changing the conditions or bodies of elseif clauses does not change what an if statement compiles to |
| LoweringLemmas.IfElseifElseTests | src/index.js:258-277 | pass 1 of an if clause, one or more elseif clauses and an else clause: if label, condition and JUMPIF, nothing for the elseifs, else label and `JUMP [else]`; two labels in all |
| LoweringLemmas.IfKeepsUnreboundLabels | src/index.js:279-298 | labels of pass 1 that pass 2 does not rebind keep their binding, and pass 1's code is a prefix of the result |
| LoweringLemmas.ElseAfterElseifIsNotRebound | src/index.js:258-298 | for an if clause, any number (one or more) of elseif clauses, and an else clause, the else label is never rebound: it resolves to the instruction just before its own `JUMP [else]` |
| LoweringLemmas.SecondLabelNotRebound | src/index.js:279-296 | with an if clause, one or more elseifs and an else clause, and two labels, pass 2 never rebinds the second label |
| StatementLemmas.LocalStepShape | src/index.js:397-409 | one `local` name: initialiser failures propagate, an undefined initialiser throws; otherwise SCOPESET on the statement's scope register, which throws exactly when the chain's root binds the name, and a new name is found afterwards |
| StatementLemmas.LocalTailEmitsNothing | src/index.js:399-400 | names without an initialiser emit nothing and change nothing |
| StatementLemmas.AssignTailEmitsNothing | src/index.js:374-375 | targets without an initialiser are skipped |
| StatementLemmas.AssignNameShape | src/index.js:384-391 | a plain-name target emits one `SETVAR [init.register, k]`, or throws on the temporal dead zone when a bound identifier is assigned; `x = y` stores an undefined register |
| StatementLemmas.GetTableShape | src/index.js:100-125 | the key constant names the member's identifier; for a chained base `x.f.g` the first register `t` is both table and shared register, the base is resolved recursively, then its key is compiled and exactly one `GETTABLE [shared register of the base, base key, t]` is appended |
| StatementLemmas.SimpleMemberTable | src/index.js:100-125 | for `a.b` the base is read with GETVAR into the second register allocated, which is both table and shared register; the first is never used |
| StatementLemmas.AssignSimpleMember | src/index.js:377-381 | `a.b = v` appends exactly the GETVAR of the table and `SETTABLEK [table, b, v]` |
| StatementLemmas.AssignChainedMember | src/index.js:100-125 | a store into a chained member target `e.f.k = v` throws when resolving the base throws; otherwise it appends the base's code, one GETTABLE from the base's shared register into the first register, and `SETTABLEK [that register, k, v]` |
| StatementLemmas.AssignTwoLinkMember | src/index.js:100-125 | `a.b.c = v` appends exactly `GETVAR [a, r+3]`, `GETTABLE [r+3, b, r+1]`, `SETTABLEK [r+1, c, v]` with the constants naming a, b and c |
| Codegen.Compiler.constructor | src/index.js:60-67 | a new compiler is in the initial state |
| Codegen.Compiler.AllocateRegister | src/index.js:69-73 | the counter goes up by one and the new value is returned |
| Codegen.Compiler.Emit | src/index.js:75-77 | one instruction appended, nothing else changed |
| Codegen.Compiler.GetConstant | src/index.js:80-88 | the `findIndex` loop and the push give exactly `getConstant`'s index and pool |
| Codegen.Compiler.NewLabel | src/index.js:312-315 | a new label bound to the last instruction |
| Codegen.Compiler.UpdateLabel | src/index.js:317-320 | the label rebound to the last instruction |
| Codegen.Compiler.CreateScope | src/index.js:90-98 | a fresh register, NEWSCOPE and a child frame |
| Codegen.Compiler.StoreBinding | src/index.js:25-30 | `scope.set` in place; false exactly when the set throws |
| Codegen.Compiler.CompileIdentifier | src/index.js:199-215 | result and new state as `compileIdentifier` specifies |
| Codegen.Compiler.CompileLiteral | src/index.js:358-369 | result and new state as `compileLiteral` specifies |
| Codegen.Compiler.CompileBreak | src/index.js:217-219 | result and new state as `compileBreakStatement` specifies |
| Codegen.Compiler.CompileNode | src/index.js:127-161 | result or exception and new state as `compileNode` specifies |
| Codegen.Compiler.CompileCompound | src/index.js:140-160 | the same for the branches whose rules compile children |
| Codegen.Compiler.CompileNodes | src/index.js:163-165 | the loop over the nodes ends as `compileNodes` specifies |
| Codegen.Compiler.CompileBinary | src/index.js:225-251 | as `compileBinaryExpression` specifies |
| Codegen.Compiler.CompileTable | src/index.js:167-197 | NEWTABLE and the field loop, as `compileTableExpression` specifies |
| Codegen.Compiler.CompileField | src/index.js:172-190 | one field, as specified |
| Codegen.Compiler.CompileCall | src/index.js:337-352 | as `compileCallExpression` specifies |
| Codegen.Compiler.CompileArguments | src/index.js:342-348 | the argument loop, as specified |
| Codegen.Compiler.CompileWhile | src/index.js:301-309 | as `compileWhileStatement` specifies |
| Codegen.Compiler.CompileIf | src/index.js:253-299 | the two clause loops, as `compileIfStatement` specifies |
| Codegen.Compiler.CompileTest | src/index.js:259-274 | one clause of pass 1, as specified |
| Codegen.Compiler.CompileBody | src/index.js:280-295 | one clause of pass 2, as specified |
| Codegen.Compiler.GetTableOf | src/index.js:100-125 | as `getTableFromMemberExpression` specifies |
| Codegen.Compiler.CompileAssignment | src/index.js:372-395 | the target loop, as `compileAssignmentStatement` specifies |
| Codegen.Compiler.CompileAssignTarget | src/index.js:374-391 | one target, as specified |
| Codegen.Compiler.CompileLocal | src/index.js:397-409 | the name loop, as `compileLocalStatement` specifies |
| Codegen.Compiler.CompileLocalName | src/index.js:399-407 | one name, as specified |
| Codegen.Compiler.TraverseTree | src/index.js:461-465 | every top-level statement with a null parent, as specified |
| Codegen.CompileProgram | src/index.js:461-465 | a fresh compiler run on a chunk ends exactly as `CompileChunk` specifies |
| Disassembly.PrintedCases | src/index.js:411-453 | only SETNIL prints nothing, and only a CALL without an argument array throws |
| Disassembly.JumpPrintsResolvedPosition | src/index.js:422-423 | a JUMP prints `JUMP PC` and its label's resolved position, an index of the program |
| Disassembly.ListingShape | src/index.js:474-477 | the listing exists exactly when every CALL has an argument array; it has one line per non-SETNIL instruction, an empty line, then `k<i>: <value>` per constant in pool order |
| Disassembly.InstructionLinesShape | src/index.js:475 | the instruction lines exist exactly when no CALL lacks its array, and there is one per non-SETNIL instruction |
| Disassembly.ConstantLinesShape | src/index.js:455-459 | one line per constant, in order |
| Disassembly.UndefinedArgumentPrintsEmpty | src/index.js:441 | an undefined argument register prints as nothing between the separators |
| ScopeDemo.GetUnaffectedByNewFrame | src/scope.js:8-13 | a new frame does not change a lookup in an older frame |
| ScopeDemo.NewScopeInherits | src/scope.js:26-32 | a new empty scope answers every lookup as its parent does |
| ScopeDemo.ScopeModule.constructor | src/scope.js:23-24 | one root scope, which is current |
| ScopeDemo.ScopeModule.SetKey | src/scope.js:15-19 | `set` in place; false exactly when the set throws, with nothing written |
| ScopeDemo.ScopeModule.CreateScope | src/scope.js:26-32 | a new scope whose `top` is the current one becomes current and is returned |
| ScopeDemo.RunDemo | src/scope.js:34-39 | the script logs "test 2"; a `get("test")` on the second scope would find "test 1" through the parent |
| Postprocess.IndexExpressionIffType | src/postprocess.js:31 | the IndexExpression test is exactly `type === "IndexExpression"` |
| Postprocess.ProcessAssignmentStatement | src/postprocess.js:26-38 | one statement per target, in order; TableAssignmentStatement exactly for IndexExpression targets; the target in `init` and the value, or nil, in `variable` |
| Postprocess.CloneNodeIsCopy | src/postprocess.js:56 | the deep copy equals the tree it was made from |
| Postprocess.PostprocessTree | src/postprocess.js:40-60 | the exported function returns a tree equal to its input |

## Left out

- Reading `script.lua`, the luaparse parser, and writing the listing to the console. The model starts from a syntax tree and ends with the listing's lines.
- The JSON output branch (`showOutput` false, src/index.js:478-479) is not modelled.
- Numbers are integers. JavaScript's floating-point numbers, and their text as the listing prints it, are not modelled.
- Values.LooseEq: a string converts to a number only when, after blanks are trimmed, it is empty or an optionally signed run of decimal digits. Hexadecimal, binary, octal, exponent and decimal-point forms ("0x10", "0b1", "1e2", "1.0", ".5") convert to NaN in the model, so `16 == "0x10"` and `1 == "1.0"` are false here although JavaScript makes them true and lets such constants share one pool entry.
- The compiler state after an exception is not modelled. A thrown error ends the script, so `Fail` carries no state.
- Object identity is not modelled:
  - the `scope` objects that `compileNode` stores on nodes (src/index.js:129-134) are passed along as values;
  - labels and scopes are indices into tables.
- Node shapes luaparse never produces are not modelled. An identifier, a member expression's `identifier`, a local statement's names and a `TableKeyString` key are always Identifier nodes, so the model keeps just the name.
- Node types without a lowering rule are one `Other` node, with no children.
- Postprocess.PostprocessTree: `traverse` only reads the copy, so the model has no member for it.
- Postprocess.CloneNodeIsCopy: `structuredClone` makes a new object, but trees are values here, so "the input is untouched" holds by construction.
- ScopeDemo.RunDemo: printing the looked-up value is not modelled. The method returns it instead.
