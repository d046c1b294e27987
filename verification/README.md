# zen, verified

A model in Dafny of the core of zen, a small scripting language with a single-pass compiler, a register
machine, a garbage collector and a scheduler of cooperative processes, and proofs about it. The modules
follow the program's parts.

- **Compiler and machine.** `Values`, `Machine` and `Codegen` say what instructions do and what the
  compiler emits for expressions, `Statements` what it emits for statements, `Grammar` and `Printing`
  which tokens it accepts, `Precedence` how tightly operators bind, and `Legality` which scripts are
  refused. `Compiler` (with `CompilerSteps` and `StatementSteps`) is the compiler itself, a
  class whose methods append to a code buffer, patch jumps and rewrite the last instruction; it is proved
  against those functions. `ExpressionProof`, `StatementProof` and `Simulation` prove that the code does
  what the source means, `PeepholeTraps` where it does not, `Aliasing` what it does to strings that others
  refer to, `Meaning` when that makes no difference, and `Script` puts a whole compile and run together.
  `Encoding` packs instructions into words.
- **Heap.** `Collector` (tri-colour marking, sweep through the object list, epoch flip), `HashTable` (the
  chained table behind maps), `Interning` (the string table and string concatenation), `Arena` (the bucketed
  allocator with its free lists and large-block list) and `Sorting` (the in-place integer sort).
- **Run time.** `Upvalues` and `Captures` (open upvalues, and how names are resolved to them) and
  `Scheduler` (the process pool and its tick).
- **Formats.** `Bytecode`, `BytecodeProof` and `BytecodeIO` (dumped functions), `Json` and `JsonIO`
  with `JsonGrammar` (the grammar of JSON texts) and `JsonLayout` (how they are laid out), `Csv`, `Utf8`, and
  `Widths` (64-bit integers in 32-bit variables).

Code that changes state in place is a class or works on arrays here too; each such method is proved against
a specification function, and the lemmas are about those functions. `dafny verify dfyconfig.toml` checks
everything. Nothing was executed.

The operations of the C library and of IEEE arithmetic are parameters (`Prims`): float addition and
comparison, `strcmp`, number formatting, and the numeric operators other than `+`, `-` and comparisons.
All that is assumed of them, and only where a lemma says so, is that 0.0 is not below itself and is at most
itself, and in the two examples of a branch that goes wrong (`StatementProof.FusionFails`, `Scripts.BranchFails`)
that `strcmp` puts "a" before "b". Hash functions, the memory the host hands out, what a process does when
it runs, and when an allocation triggers a collection are parameters too.

## Findings

Properties one would expect that the code does not have, each with an input and the exact condition.

- **A branch on a string comparison can go the wrong way.** `if (x < y)` with "a" in x and "b" in y skips its
  body (`StatementProof.FusionFails`), and the script `if ("a" < "b") { print(1); }` prints nothing
  (`Scripts.BranchFails`): the fused instructions compare strings as 0.0 and 0.0. It happens
  exactly to orderings of two strings with `strcmp` below 0 for `<` and `>`, above 0 for `<=` and `>=`
  (`Values.FusionExact`, `StatementProof.TakenExact`, `StatementProof.BranchCorrect`).
- **Appending to a string can change another variable.** With s made as `a + b` from more than 128 characters,
  `t = s + y` changes s as well (`Aliasing.AppendFails`), and a script that goes on to print s prints t
  (`Scripts.AppendPrints`). It happens exactly when something else refers to the
  left operand's object, the object is neither interned nor empty, the right operand is not empty and the
  capacity has room for both and a terminator (`Aliasing.AppendExact`, `Aliasing.ExpressionSeen`,
  `Interning.StringTable.AppendInPlace`). A run without it prints what it would if every addition made a new string
  (`Scripts.ScriptIdeal`).
- **The immediate-operand fold ignores jumps.** `1 + (false and 5)` leaves nil where the sum should be
  (`PeepholeTraps.FoldFails`). It happens exactly when the right operand of `+` or `-` is an `and`, `or` or
  ternary, through parentheses, whose last operand is a literal from -128 to 127 that is not reached, and the
  stale register does not happen to hold the sum (`PeepholeTraps.FoldExact`).
- **So does redirecting an assignment.** For a local x that holds 7, `x = false and (nil < nil)` leaves 7 in x
  (`PeepholeTraps.AssignFails`). It happens exactly when the right side is such a join ending in an operation
  that is not reached, and x held something else (`PeepholeTraps.AssignExact`).
- **Instruction fields are packed without a check.** `if (true) { true; ... }` with 32767 statements or more in
  its body compiles to a branch whose distance loses its high bits (`Encoding.EncodingFails`). A script's words
  are its code exactly when every immediate, jump distance and index fits its field (`Encoding.ScriptExact`, and
  `Encoding.DecodeExact` for one instruction), so always for at most 32769 instructions and 65536 constants
  (`Encoding.ScriptEncodes`).
- **Sorting integers beyond 32 bits can read past the array.** The pivot is kept in 32 bits: seventeen values
  of -2147483649 send the left scan past the end (`Sorting.ScanEscapes`). An array of at most 16 values, or of
  values that all fit, is sorted (`Sorting.SortInts`), and no weaker guard on length and range would do
  (`Sorting.GuardTight`). Which larger arrays outside the guard are sorted nevertheless depends on the pivots
  that come up.
- **utf8.encode narrows its elements.** [0x100000041] encodes as "A" (`Utf8.EncodeFails`). An array with
  something that is no code point is accepted exactly when everything in it narrows to code points
  (`Utf8.EncodeExact`). utf8.offset narrows its arguments the same way (`Utf8.NativeOffsetUndone`).
- **json.parse cuts long numbers.** A number of more than 63 characters is read as its first 63: 64 digits come
  out at a tenth of their value or less (`JsonGrammar.NumberFails`). A number that does not become an integer is
  read as its whole text exactly when it has at most 63 characters (`JsonGrammar.NumberCut`).
- **CSV drops blank rows, and quotes for commas only.** A table of strings survives the round trip exactly when
  no row is empty or a single empty cell (`Csv.RoundTrip`); with another separator exactly when, besides,
  no cell has a comma, quote or line break (`Csv.OtherSeparator`): written with semicolons, `a,b` comes back with
  its quotes (`Csv.SeparatorFails`). `Csv.WhatComesBack` says what becomes of every table.
- **A ternary associates to the left.** A comment in compiler_expressions.cpp says that nested ternaries
  associate to the right; the branches are parsed one level above a ternary, so that `a ? b : c ? d : e` groups
  as `(a ? b : c) ? d : e` (`Grammar.TernaryLeft`). The grammar here follows the code.

## Model

| member | source | states |
|---|---|---|
| `Values.ImmediateExact` | libzen/src/vm_dispatch.cpp:1123-1223 | On every left operand but class instances, the immediate instructions compute what the register forms of `+` and `-` compute with that integer on the right, down to the string object they make. |
| `Values.IntegerLaws` | libzen/src/vm_dispatch.cpp:587-700 | Integers compare as integers; their sum and difference are the ones of the 64-bit range with the right residue. |
| `Values.FloatLaws` | libzen/src/vm_dispatch.cpp:1297-1352 | With a float among the operands, or what is no number, the floats decide, what is no number counting as zero. |
| `Values.StringLaws` | libzen/src/vm_dispatch.cpp:1271-1352 | Strings are ordered by strcmp and equal when their characters are. |
| `Values.EqualityLaws` | libzen/include/zen/value.h:138-167 | Nil equals nil, truth values and integers what they are, strings by characters, floats and integers beside them as floats, and nothing else is equal. |
| `Values.AppendLaws` | libzen/src/vm_dispatch.cpp:587-686 | Adding to a string gives a string of what print shows of both operands, in order. |
| `Values.TruthLaws` | libzen/include/zen/value.h:103-115 | Only nil and false are false, and `not` says which. |
| `Values.FusionExact` | libzen/src/vm_dispatch.cpp:3440-3536 | For all operands but class instances, a fused compare-and-branch tests what the comparison and a branch on its boolean would test, exactly unless it orders two strings that do not compare as 0.0 and 0.0 do. |
| `ExpressionProof.Discipline` | libzen/src/compiler.cpp:794-827 | Whatever expression is compiled, no register below the window is released, the result is in the register asked for, in a local or in the window, and constants are only added. |
| `ExpressionProof.ExpressionCorrect` | libzen/src/compiler_expressions.cpp:280-383 | The code of every side-effect-free expression without the fold trap runs to its end with the expression's value in the result register, the heap it leaves, and every local, older temporary and global referring to what it did. |
| `PeepholeTraps.FoldExact` | libzen/src/compiler_expressions.cpp:1611-1638 | `l + r` and `l - r` with r in the trap of the immediate fold: the result is right exactly when r's last operand is reached or the stale register happens to hold it. |
| `PeepholeTraps.FoldFails` | libzen/src/compiler_expressions.cpp:1611-1638 | `1 + (false and 5)`: the compiled code ends with nil in the result register. |
| `PeepholeTraps.AssignExact` | libzen/src/compiler.cpp:914-943 | `x = e` for a local x stores e's value, exactly unless e is an `and`, `or` or ternary that ends in an operation, that operation is not reached, and x held something else. |
| `PeepholeTraps.AssignFails` | libzen/src/compiler.cpp:914-943 | `x = false and (nil < nil)` for a local x holding 7: the compiled code ends with 7 still in x. |
| `StatementProof.BranchCorrect` | libzen/src/compiler.cpp:846-900 | A compiled condition and its branch end in the body or past it as the emitted test says, with nothing older changed; and where the condition says, exactly outside the trap of string orderings. |
| `StatementProof.TakenExact` | libzen/src/compiler.cpp:846-900 | The emitted test agrees with the condition's truth exactly when the condition is not, through parentheses, an ordering of two strings with strcmp below 0 for `<`, `>` or above 0 for `<=`, `>=` (operands in the order compared). |
| `StatementProof.FusionFails` | libzen/src/vm_dispatch.cpp:3440-3453 | The compiled branch of `x < y` with "a" in x and "b" in y goes past the body although the comparison is true. |
| `StatementProof.FusionShape` | libzen/src/emitter.cpp:378-405 | Comparisons are the only conditions that are fused, and then the code is that of the operands and the two-word branch over them. |
| `Aliasing.AppendExact` | libzen/src/vm_dispatch.cpp:587-686 | `R[a] = R[b] + R[c]` for any operands: no other register or global is seen to change, exactly when the left one is not a string with an alias that is neither interned nor empty, has room, and is given something to append. |
| `Aliasing.StepWrites` | libzen/src/memory.cpp:298-365 | Every dispatch leaves all references good and changes the characters of exactly the object the addition appends to, if it does; others are kept, with their capacity and interned flag. |
| `Aliasing.RunKeepsValid` | libzen/src/memory.cpp:298-365 | Over every run references stay good and string objects only grow at their ends. |
| `Aliasing.TouchedExact` | libzen/src/memory.cpp:332-365 | Evaluating an expression changes exactly the objects its additions append to, and each of these is held by one of its variables or was made on the way. |
| `Aliasing.ExpressionSeen` | libzen/src/vm_dispatch.cpp:596-600 | Running an expression's code, a local, older temporary or global looks as before exactly when it refers to none of those objects. |
| `Aliasing.FullUntouched` | libzen/src/memory.cpp:332-344 | If no variable of the expression holds a string with room to grow, no object that was there changes at all. |
| `Aliasing.CopyMeaning` | libzen/src/memory.cpp:298-365 | As long as no object held by one of its variables is appended to, an expression means what it would if every addition made a new string. |
| `Aliasing.FullMeaning` | libzen/src/memory.cpp:298-365 | So it means, whenever its variables' strings have no room to grow. |
| `Aliasing.AppendFails` | libzen/src/memory.cpp:332-352 | For every s made as `a + b` with more than 128 characters and every non-empty y no longer than s, `s + y` is s's own object, and s now ends in y. |
| `Simulation.StatementCorrect` | libzen/src/compiler_statements.cpp:1328-1402 | The code of every statement, at any place, does dispatch by dispatch what the statement's doing is: it falls through, breaks to the loop's end, continues at its start, or keeps looping with the same output, and keeps variables, globals, output and heap in step. |
| `Simulation.StmtShape` | libzen/src/compiler.cpp:603-634 | Every statement restores the scope it found but for a declaration's own local, whose register is above all others, and its waiting jumps lie in its own code. |
| `Simulation.DoneAsMeant` | libzen/src/compiler_statements.cpp:1453-1543 | What the code of a statement does is what the statement means, or the run met a branch on a string ordering or an assignment that goes wrong. |
| `Scripts.ScriptCorrect` | libzen/src/compiler.cpp:406-483 | A compiled script runs to its halt with the output, globals and heap of its statements' doing, or loops as long with the same output; and when no trap is met, that is what the script means. |
| `Scripts.TokensCorrect` | libzen/src/compiler.cpp:406-483 | The same for the script any compiling tokens are parsed to, if its expressions have no fold trap and no assignment inside. |
| `Scripts.ScriptIdeal` | libzen/src/compiler.cpp:406-483 | A script prints what it should, strings being values and every condition and assignment being what it says, if its run meets no trap and appends to no string that another variable holds. |
| `Meaning.StmtIdeal` | libzen/src/memory.cpp:298-365 | A statement run over strings that are appended to in place ends as it would if every addition made a new string, all variables looking the same and the same text printed, if every expression on the way appends at most to a string that only its own target holds. |
| `Meaning.QuietValue` | libzen/src/memory.cpp:332-365 | The value of such an expression is what it would be over strings that never change: `s = s + x` is one. |
| `Scripts.WrittenScript` | libzen/src/compiler.cpp:406-483 | Compiling a script as it is written down compiles its statements. |
| `Scripts.BranchFails` | libzen/src/compiler.cpp:846-900 | `if ("a" < "b") { print(1); }` compiles and halts without printing, although its condition is true. |
| `Scripts.AppendPrints` | libzen/src/memory.cpp:332-352 | `var s = a + b; var t = s + y; print(s);` prints all three texts, for all literals a and b of more than 128 characters together and every non-empty y no longer than both. |
| `Precedence.Climbs` | libzen/src/compiler_expressions.cpp:17-75 | `a p b q c`, for any two of `or`, `and`, `|`, `^`, `&`, equality, comparison, shift, sum, product and `**`: the second operator takes b exactly when its class is the tighter one, or the same and right-associative. |
| `Precedence.UnaryClimbs` | libzen/src/compiler_expressions.cpp:1190-1224 | `-a p b` applies the sign to a alone, but to all of `a ** b`. |
| `Precedence.UnaryRight` | libzen/src/compiler_expressions.cpp:1190-1224 | A sign on the right of an operator takes its operand only; what follows binds as if it were not there. |
| `Precedence.TernaryClimbs` | libzen/src/compiler_expressions.cpp:1787-1818 | Every binary operator binds tighter than a ternary on all three sides. |
| `Precedence.AssignClimbs` | libzen/src/compiler_expressions.cpp:280-383 | An assignment takes the whole operation behind it. |
| `Precedence.OneClass` | libzen/include/zen/compiler.h:25-44 | Every binary operator is in exactly one class. |
| `Precedence.LiteralReads` | libzen/src/compiler_expressions.cpp:548-587 | A decimal literal above 2^63 is refused and 2^63 is the least integer; a hexadecimal one is a bit pattern, all ones when it is too large. |
| `Grammar.ParsePrinted` | libzen/src/compiler_expressions.cpp:280-383 | Printing an expression with the parentheses it has and parsing the tokens gives the expression, and on with the operators behind it. |
| `Grammar.ParseOperand` | libzen/src/compiler_expressions.cpp:280-383 | Followed by something that binds too loosely to be taken in, exactly the printed expression is parsed. |
| `Grammar.TernaryLeft` | libzen/src/compiler_expressions.cpp:1787-1818 | `a ? b : c ? d : e` is parsed as `(a ? b : c) ? d : e`, against the comment in the source. |
| `Printing.StmtBack` | libzen/src/compiler_statements.cpp:1328-1402 | A printed statement is parsed back as itself, unless what follows continues an `if`. |
| `Printing.ScriptFormed` | libzen/src/compiler_statements.cpp:1328-1543 | Whatever is parsed has blocks for bodies, and nothing, an `if` or a block behind an `if`. |
| `Printing.ScriptBack` | libzen/src/compiler.cpp:456-470 | Every script whose trees can be written down within the nesting limit is what its tokens parse to. |
| `Encoding.DecodeExact` | libzen/include/zen/opcodes.h:201-213 | An instruction with registers below 256 comes back out of its 32-bit word exactly when its immediate, jump distance, constant or global index fits its field. |
| `Encoding.ScriptExact` | libzen/src/emitter.cpp:41-88 | The words of any compiled script, whatever its length, are read back as its instructions exactly when every immediate, jump distance and index fits its field. |
| `Encoding.ScriptEncodes` | libzen/src/emitter.cpp:41-88 | So they are for every script of at most 32769 instructions, both halts included, and 65536 constants. |
| `Encoding.EncodingFails` | libzen/src/emitter.cpp:346-356 | For every n of at least 32767, `if (true) { true; ... }` with n statements in its body compiles with a branch over n + 1 words, and its words are not read back as its code. |
| `SinglePass.Compiler.CompileScript` | libzen/src/compiler.cpp:406-483 | The single pass over the tokens accepts exactly what the grammar and the limits on nesting, registers, locals, loops and branches allow, and leaves exactly the code of the statements with both halts, their constants and register count. |
| `SinglePass.Compiler.ParsePrecedence` | libzen/src/compiler_expressions.cpp:280-383 | One call parses what the grammar's expression parser does at that precedence and depth, and appends that expression's code with its register effects; otherwise it reports an error. |
| `SinglePass.Compiler.PrefixRule` | libzen/src/compiler_expressions.cpp:385-472 | The same for the prefix part of an expression. |
| `SinglePass.Compiler.InfixRule` | libzen/src/compiler_expressions.cpp:474-546 | The same for one operator and its right operand behind a compiled left one. |
| `SinglePass.Compiler.Binary` | libzen/src/compiler_expressions.cpp:1522-1694 | A binary operator behind its compiled left operand: the operand's code, then the operation with the immediate fold. |
| `SinglePass.Compiler.EmitOperation` | libzen/src/compiler_expressions.cpp:1600-1694 | The operation's instructions, the loading of a small literal on the right taken back and folded in. |
| `SinglePass.Compiler.PowExpr` | libzen/src/compiler_expressions.cpp:1743-1751 | The same for `**`. |
| `SinglePass.Compiler.ShortCircuit` | libzen/src/compiler_expressions.cpp:1879-1930 | `and` and `or`: both sides in one register with a patched jump between. |
| `SinglePass.Compiler.TernaryExpr` | libzen/src/compiler_expressions.cpp:1787-1818 | The two branches of a ternary in one register with two patched jumps. |
| `SinglePass.Compiler.UnaryRule` | libzen/src/compiler_expressions.cpp:1192-1223 | A unary operator on an operand that binds as tightly as `**`. |
| `SinglePass.Compiler.Grouping` | libzen/src/compiler_expressions.cpp:1229-1234 | An expression in parentheses, no infix operator following its last token. |
| `SinglePass.Compiler.Number` | libzen/src/compiler_expressions.cpp:548-587 | An integer literal within int16 is loaded inline and any other from the pool; a decimal one beyond 2^63 is an error. |
| `SinglePass.Compiler.StringLiteral` | libzen/src/compiler_expressions.cpp:589-605 | A string literal is loaded from the pool. |
| `SinglePass.Compiler.Literal` | libzen/src/compiler_expressions.cpp:699-721 | `true`, `false` and `nil`. |
| `SinglePass.Compiler.AssignLocal` | libzen/src/compiler_expressions.cpp:727-1190 | Assignment to a local, its register counter restored. |
| `SinglePass.Compiler.AssignGlobal` | libzen/src/compiler_expressions.cpp:727-1190 | Assignment to a global through the next register. |
| `SinglePass.Compiler.ReadVariable` | libzen/src/compiler_expressions.cpp:727-1190 | A local is read in place unless its value is wanted elsewhere and no operator follows; a global is loaded. |
| `SinglePass.Compiler.RetargetLastProducer` | libzen/src/compiler.cpp:930-943 | The last instruction is redirected exactly when it can be and computed the source, a temporary. |
| `SinglePass.Compiler.EmitCondFalseJump` | libzen/src/compiler.cpp:846-900 | The branch of a condition, fused exactly when nothing jumps behind the comparison and its result is a temporary. |
| `SinglePass.Compiler.PatchJump` | libzen/src/emitter.cpp:346-356 | The jump at an offset gets the distance to the end of the code, which is noted as a jump target. |
| `SinglePass.Compiler.EmitLoop` | libzen/src/emitter.cpp:369-374 | The jump back to the start of a loop. |
| `SinglePass.Compiler.AddConstant` | libzen/src/emitter.cpp:72-88 | The index of a constant in the pool, to which it is added when new. |
| `SinglePass.Compiler.AllocReg` | libzen/src/compiler.cpp:794-811 | The next register, the high-water mark kept, and an error past the limit. |
| `SinglePass.Compiler.FreeReg` | libzen/src/compiler.cpp:813-827 | A register is released only from the top and when no local owns it. |
| `SinglePass.Compiler.ResolveLocal` | libzen/src/compiler.cpp:647-657 | The register of the innermost declaration of a name, or -1. |
| `SinglePass.Compiler.EndScope` | libzen/src/compiler.cpp:608-634 | The locals of the scope are gone and the counter is behind the last one left. |
| `SinglePass.Compiler.Declaration` | libzen/src/compiler_statements.cpp:17-113 | One declaration or statement of the grammar, its code appended and its scope effect made; otherwise an error. |
| `SinglePass.Compiler.VarDeclaration` | libzen/src/compiler_statements.cpp:115-249 | The same for `var`: a global at script level, a local whose name starts after its initializer elsewhere. |
| `SinglePass.Compiler.IfStatement` | libzen/src/compiler_statements.cpp:1453-1508 | The same for an `if` with its `elif` arms and `else`, all end jumps patched. |
| `SinglePass.Compiler.WhileStatement` | libzen/src/compiler_statements.cpp:1510-1543 | The same for a loop, its waiting breaks patched. |
| `SinglePass.Compiler.Block` | libzen/src/compiler_statements.cpp:1422-1431 | Declarations up to the closing brace. |
| `SinglePass.Compiler.ScopedBody` | libzen/src/compiler_statements.cpp:1433-1451 | A block, or one declaration, in a scope of its own. |
| `SinglePass.Compiler.BreakStatement` | libzen/src/compiler_statements.cpp:2411-2428 | A jump that waits for the loop's end, an error outside loops. |
| `SinglePass.Compiler.ContinueStatement` | libzen/src/compiler_statements.cpp:2430-2465 | A jump to the loop's start, an error outside loops. |
| `SinglePass.Compiler.PrintStatement` | libzen/src/compiler_statements.cpp:2498-2525 | `print` of one parenthesized expression. |
| `SinglePass.Compiler.ExpressionStatement` | libzen/src/compiler_statements.cpp:1408-1420 | An expression and a semicolon, the register counter restored. |
| `Collector.Gc.Alloc` | libzen/src/memory.cpp:162-172 | A new object is black, first in the list and one more newborn. |
| `Collector.Gc.Store` | libzen/src/memory.cpp:1396-1556 | Storing references to listed objects keeps the list and colour invariant, with no write barrier. |
| `Collector.Gc.MarkObj` | libzen/src/memory.cpp:1370-1387 | A white object turns gray and joins the gray list; nothing else changes. |
| `Collector.Gc.Blacken` | libzen/src/memory.cpp:1396-1556 | A gray object turns black and everything it refers to is marked. |
| `Collector.Gc.Trace` | libzen/src/memory.cpp:1559-1566 | Emptying the gray list keeps the tri-colour invariant: what is black refers to nothing white. |
| `Collector.Gc.Sweep` | libzen/src/memory.cpp:1794-1816 | Unlinking through the list frees exactly the white objects and keeps the others in order. |
| `Collector.Gc.FlipEpoch` | libzen/src/memory.cpp:1852-1911 | Exchanging the colours makes every survivor old and white without touching it. |
| `Collector.Gc.Collect` | libzen/src/memory.cpp:1852-1911 | A collection frees exactly the objects not reachable from the roots, keeps the others in list order with their references, restores the invariant, and leaves nothing freed that a survivor holds in any field. |
| `Collector.LiveTwice` | libzen/src/memory.cpp:1852-1911 | Collecting again without a change in between keeps exactly what the first collection kept. |
| `Collector.CollectTwice` | libzen/src/memory.cpp:1852-1911 | Two collections in a row free exactly what the first one frees. |
| `Collector.KidsExact` | libzen/src/memory.cpp:1396-1556 | The references followed out of an object are exactly those it holds, field by field for every object type: of a map's occupied slots both key and value, of a set's the key. |
| `Collector.MarkedIsReachable` | libzen/src/memory.cpp:1559-1566 | When nothing is gray, the marked objects are exactly the reachable ones. |
| `HashTable.HashMap.Get` | libzen/src/memory.cpp:916-939 | The value of the key in the map the table stands for, and whether there is one. |
| `HashTable.HashMap.Contains` | libzen/src/memory.cpp:971-987 | Whether the key is in the map. |
| `HashTable.HashMap.Put` | libzen/src/memory.cpp:868-914 | The map afterwards has the key with the value and is otherwise the same; says whether the key is new. |
| `HashTable.HashMap.Delete` | libzen/src/memory.cpp:941-969 | The map afterwards lacks the key and is otherwise the same; its node is free again. |
| `HashTable.HashMap.Clear` | libzen/src/memory.cpp:991-1009 | The map is empty. |
| `HashTable.HashMap.RebuildBuckets` | libzen/src/memory.cpp:805-818 | Every live node is chained again from its hash's bucket, and the map is the same. |
| `HashTable.HashMap.GrowBuckets` | libzen/src/memory.cpp:820-830 | Doubling the buckets keeps the map. |
| `HashTable.HashMap.GrowNodes` | libzen/src/memory.cpp:832-849 | Doubling the pool keeps the map and threads the new nodes into the free list. |
| `HashTable.HashMap.AllocNode` | libzen/src/memory.cpp:851-858 | A node that no chain uses, the pool grown if there was none. |
| `HashTable.HashMap.FreeNode` | libzen/src/memory.cpp:860-866 | The node is marked free and heads the free list. |
| `HashTable.HashMap.Walk` | libzen/src/memory.cpp:868-969 | Walking a bucket's chain finds the key's node and the one before it, exactly if the map has the key. |
| `Interning.StringTable.Find` | libzen/src/memory.cpp:189-207 | The interned string with these characters, or null exactly when there is none. |
| `Interning.StringTable.Grow` | libzen/src/memory.cpp:209-233 | Doubling the table keeps every string reachable by its probe sequence. |
| `Interning.StringTable.Rebuild` | libzen/src/memory.cpp:1769-1792 | The table afterwards has exactly the strings the sweep will not free, each reachable. |
| `Interning.StringTable.Intern` | libzen/src/memory.cpp:247-271 | The one object with these characters, new exactly when there was none, even if its allocation collects garbage. |
| `Interning.StringTable.Concat` | libzen/src/memory.cpp:298-330 | An operand itself when the other is empty; up to 128 characters the one interned object of both texts, entered if it was not there; above that a new object that is not interned, with twice the room, the table unchanged. In kind and capacity it is what the machine's concatenation gives, and a hash once computed is that of the text. |
| `Interning.StringTable.AppendInPlace` | libzen/src/memory.cpp:332-365 | A string of both texts; the left object's characters change exactly when it is not interned, neither operand is empty and its capacity has room, and then it is the result; else the result is as Concat's or a new object with twice the room. In kind and capacity it is what the machine's addition gives, and no stale hash is left behind. |
| `Interning.GapMeansAbsent` | libzen/src/memory.cpp:189-207 | A gap after passing only other strings means that the string is nowhere in the table. |
| `ArenaAllocator.Arena.Alloc` | libzen/src/zen_arena.cpp:122-180 | A block of its own: apart from every live one, whose bytes stay, with lists and counters exact; nothing for size 0. |
| `ArenaAllocator.Arena.Free` | libzen/src/zen_arena.cpp:182-202 | The block alone stops being live and heads its bucket's free list or goes back to the host. |
| `ArenaAllocator.Arena.Realloc` | libzen/src/zen_arena.cpp:204-242 | The allocation's first bytes go along to a block of the new size, and every other one stays as it is. |
| `ArenaAllocator.Arena.LargeAlloc` | libzen/src/zen_arena.cpp:61-70 | A block too large for the buckets, linked in front of the large list behind its header. |
| `ArenaAllocator.Arena.LargeFree` | libzen/src/zen_arena.cpp:73-83 | Unlinking a large block in the middle of the list or at its ends keeps the others linked both ways. |
| `ArenaAllocator.Arena.LargeRealloc` | libzen/src/zen_arena.cpp:86-100 | A large block that moves takes its place in the list and its bytes along. |
| `ArenaAllocator.Arena.Carve` | libzen/src/zen_arena.cpp:157-180 | A new chunk's blocks but the first are threaded into a free list inside the chunk. |
| `ArenaAllocator.Arena.Destroy` | libzen/src/zen_arena.cpp:102-120 | Every region the host gave out goes back exactly once. |
| `ArenaAllocator.BuildLookup` | libzen/src/zen_arena.cpp:16-47 | The lookup table has, for every size, the least bucket whose blocks are large enough. |
| `ArenaAllocator.LiveApart` | libzen/src/zen_arena.cpp:122-180 | Two live allocations never overlap. |
| `ArenaAllocator.FreeApart` | libzen/src/zen_arena.cpp:182-202 | No part of a free block is inside a live allocation. |
| `ArenaAllocator.HeaderApart` | libzen/src/zen_arena.cpp:61-70 | Headers of large blocks are outside every live allocation. |
| `Sorting.SortInts` | libzen/src/memory.cpp:710-716 | An array of at most 16 values, or of values that fit 32 bits, is sorted and keeps its values. |
| `Sorting.QuickSort` | libzen/src/memory.cpp:646-708 | A stretch is sorted in place and nothing outside changes; recursion is into the smaller side only, its depth logarithmic. |
| `Sorting.MedianLast` | libzen/src/memory.cpp:656-674 | The median of the first, middle and last value is put last, and only those three change places. |
| `Sorting.Partition` | libzen/src/memory.cpp:675-698 | The pivot ends with nothing above it on its left and nothing below it on its right, the unbounded left scan never leaving the stretch. |
| `Sorting.InsertionSort` | libzen/src/memory.cpp:631-644 | A stretch is sorted in place and nothing outside changes. |
| `Sorting.ScanStays` | libzen/src/memory.cpp:675-683 | The left scan stays inside exactly when something from its start on is not below the pivot. |
| `Sorting.ScanEscapes` | libzen/src/memory.cpp:675-683 | Seventeen equal values just below the 32-bit range: the left scan reads past the end. |
| `Sorting.GuardTight` | libzen/src/memory.cpp:675-698 | For every length above 16 and every value that does not fit 32 bits there is an array of it and its predecessor whose first partition reads past the end or puts a value for good before a smaller one, so no weaker guard on length and range would do. |
| `Widths.NarrowExact` | libzen/src/memory.cpp:675-675 | Casting to 32 bits keeps a value exactly when it fits. |
| `BytecodeProof.RoundTrip` | libzen/src/bytecode.cpp:387-452 | A dumped function read from the middle of anything is the same function, but for the debug information stripped from it, and exactly its bytes are consumed. |
| `BytecodeProof.LoadedSame` | libzen/src/bytecode.cpp:387-452 | With debug information nothing at all is lost. |
| `BytecodeProof.Truncated` | libzen/src/bytecode.cpp:843-968 | A function cut short anywhere is refused. |
| `BytecodeProof.Appended` | libzen/src/bytecode.cpp:843-968 | Bytes behind a function do not change how it is read. |
| `BytecodeProof.OlderFile` | libzen/src/bytecode.cpp:843-968 | A file of minor version 1 loads as the same function without type parameters at any level. |
| `BytecodeIO.Writer.WriteFunction` | libzen/src/bytecode.cpp:387-452 | The writer appends exactly the format's bytes, or fails exactly on functions that cannot be dumped. |
| `BytecodeIO.Writer.WriteValue` | libzen/src/bytecode.cpp:322-385 | The same for one constant. |
| `BytecodeIO.Writer.WriteBits` | libzen/src/bytecode.cpp:55-130 | A 64-bit pattern byte by byte, least significant first. |
| `BytecodeIO.Reader.ReadFunction` | libzen/src/bytecode.cpp:843-968 | The reader gives what the format's reading function gives, at the same offset, or fails when it does. |
| `BytecodeIO.Reader.ReadValue` | libzen/src/bytecode.cpp:714-831 | The same for one constant. |
| `BytecodeIO.Reader.ReadString` | libzen/src/bytecode.cpp:536-560 | The same for a length and its bytes, refused when negative or longer than what is left. |
| `Json.RoundTrip` | libzen/src/builtin_json.cpp:846-935 | Parsing what stringify prints gives the value back, compact and with every indent width, for every tree of strings, 64-bit integers, booleans, null, arrays and maps. |
| `Json.StringBack` | libzen/src/builtin_json.cpp:131-175 | Every byte string survives escaping and parsing. |
| `JsonGrammar.ParseExact` | libzen/src/builtin_json.cpp:366-881 | A text is parsed to a value exactly when it is written by the grammar of RFC 8259 with white space around it, and the value is the one it means. |
| `JsonGrammar.EscapeMeans` | libzen/src/builtin_json.cpp:416-441 | Every `\u` escape, or surrogate pair of them, in hex digits of either case, gives the bytes that decode to its code point. |
| `JsonGrammar.LoneSurrogate` | libzen/src/builtin_json.cpp:530-566 | A surrogate without its other half is refused. |
| `JsonGrammar.ShortestEscape` | libzen/src/builtin_json.cpp:131-175 | A byte is printed as it is exactly when it may stand so, else in two characters where there are such, else in six. |
| `JsonGrammar.KeysCollapse` | libzen/src/builtin_json.cpp:752-801 | A parsed object has every key once, in the order in which they first come, with the value that comes last. |
| `JsonGrammar.NumberCut` | libzen/src/builtin_json.cpp:682-714 | A number that does not become an integer is read as its text exactly when it has at most 63 characters; a longer integer comes out at a tenth or less. |
| `JsonGrammar.NumberFails` | libzen/src/builtin_json.cpp:682-714 | 64 digits or more are parsed as the first 63 of them. |
| `JsonLayout.PrintedLaid` | libzen/src/builtin_json.cpp:179-270 | Printed text breaks lines after opening brackets and commas and before closing brackets, indents by the width for each open bracket and puts one space behind a colon; compact text has no white space. |
| `JsonIO.LayoutAsked` | libzen/src/builtin_json.cpp:896-925 | No indent or false is compact, true is two spaces, a number that many up to 16. |
| `JsonIO.Stringify` | libzen/src/builtin_json.cpp:887-935 | Succeeds exactly when the value has a tree within the nesting limit, so never on a cycle, and then prints that tree, laid out as the indent asks. |
| `JsonIO.Stringifier.StringifyValue` | libzen/src/builtin_json.cpp:297-355 | Appends the printed tree of the value at this depth, or refuses, with the stack of containers as it was. |
| `JsonIO.Stringifier.StringifyArray` | libzen/src/builtin_json.cpp:179-217 | The same for an array, refused on a cycle or past the nesting limit. |
| `JsonIO.Stringifier.StringifyMap` | libzen/src/builtin_json.cpp:219-295 | The same for a map, its entries in slot order without the free slots. |
| `JsonIO.CycleNone` | libzen/src/builtin_json.cpp:107-124 | On a cycle of containers nothing has a tree, however deep one looks. |
| `JsonIO.Refused` | libzen/src/builtin_json.cpp:107-124 | What the stack check refuses has no tree within the limit. |
| `JsonIO.HeapRoundTrip` | libzen/src/builtin_json.cpp:846-935 | A heap value whose tree JSON can carry comes back from stringify and parse as that tree. |
| `JsonIO.ParseText` | libzen/src/builtin_json.cpp:846-881 | Accepts exactly the texts of the grammar of RFC 8259, written down apart from the parser, and gives the value the text means. |
| `JsonIO.Parser.ParseNext` | libzen/src/builtin_json.cpp:803-841 | One value from the cursor, as the grammar has it. |
| `JsonIO.Parser.ParseStringToken` | libzen/src/builtin_json.cpp:471-605 | One string with its escapes, surrogate pairs joined. |
| `JsonIO.Parser.ParseArray` | libzen/src/builtin_json.cpp:718-750 | One array, a comma never before its bracket. |
| `JsonIO.Parser.ParseObject` | libzen/src/builtin_json.cpp:752-801 | One object, a repeated key keeping its place and taking the last value. |
| `JsonIO.StrBuf.Puts` | libzen/src/builtin_json.cpp:57-79 | Appends the bytes, growing the buffer as needed. |
| `Csv.RoundTrip` | libzen/src/builtin_csv.cpp:162-245 | With the default separator a table of strings comes back from stringify and parse exactly when no row is empty or a single empty cell. |
| `Csv.WhatComesBack` | libzen/src/builtin_csv.cpp:343-426 | What parsing gives for what stringify wrote, for every table and every separator that is no quote or line break. |
| `Csv.LineEnds` | libzen/src/builtin_csv.cpp:162-245 | Whether lines end in a line feed alone or after a carriage return does not matter, line by line, and the last line needs no end. |
| `Csv.CellTexts` | libzen/src/builtin_csv.cpp:92-153 | Truth values are written as words, nil and other values as nothing, integers in decimal. |
| `Csv.OtherSeparator` | libzen/src/builtin_csv.cpp:343-426 | With another separator it does exactly when, besides, no cell has a comma, quote or line break. |
| `Csv.SeparatorFails` | libzen/src/builtin_csv.cpp:92-153 | The cell `a,b` written with semicolons comes back with its quotes. |
| `Csv.ParseCsv` | libzen/src/builtin_csv.cpp:162-245 | The loop over the bytes gives the rows of the state machine. |
| `Csv.Stringify` | libzen/src/builtin_csv.cpp:343-426 | The loop over the rows writes their text. |
| `Utf8.RoundTrips` | libzen/src/builtin_utf8.cpp:33-119 | Decoding undoes encoding on every array of code points, encoding undoes decoding on every valid string, and the valid strings are exactly the encodings. |
| `Utf8.DecodeEncoded` | libzen/src/builtin_utf8.cpp:33-119 | Decoding where a code point's encoding stands gives it back and the index behind it. |
| `Utf8.EncodeDecoded` | libzen/src/builtin_utf8.cpp:33-119 | What is decoded encodes to the very bytes it was decoded from: no overlong forms. |
| `Utf8.ValidGrammar` | libzen/src/builtin_utf8.cpp:357-380 | The valid strings are exactly those of the grammar in section 4 of RFC 3629. |
| `Utf8.DecodesGrammar` | libzen/src/builtin_utf8.cpp:33-89 | Decoding accepts exactly the characters of that grammar, with their lengths. |
| `Utf8.OffsetUndone` | libzen/src/builtin_utf8.cpp:286-352 | Going back by a count undoes going forward by it, wherever the string decodes that far. |
| `Utf8.NativeOffsetUndone` | libzen/src/builtin_utf8.cpp:286-352 | The same through the 32-bit arguments: it gets back to the start argument exactly when that fits. |
| `Utf8.ForwardReaches` | libzen/src/builtin_utf8.cpp:286-352 | From a boundary, offset moves exactly as long as there are code points left, and to a boundary. |
| `Utf8.EncodeExact` | libzen/src/builtin_utf8.cpp:189-247 | Encoding refuses an array exactly when it has something that is no code point, unless all it has of the kind narrows to code points. |
| `Utf8.EncodeFails` | libzen/src/builtin_utf8.cpp:220-229 | 0x100000041 is no code point and is encoded as the letter A. |
| `Utf8.EncodeArray` | libzen/src/builtin_utf8.cpp:189-247 | The loop gives the encoding of the narrowed elements, or nothing. |
| `Utf8.DecodeAt` | libzen/src/builtin_utf8.cpp:33-89 | The loop over continuation bytes decodes as specified. |
| `Utf8.GetCodepoints` | libzen/src/builtin_utf8.cpp:124-184 | All code points of the string, or nothing when something does not decode. |
| `Utf8.GetOffset` | libzen/src/builtin_utf8.cpp:286-352 | The loops forward and backward give the specified offset of the narrowed arguments. |
| `Scheduler.VM.Tick` | libzen/src/vm.cpp:2158-2265 | Every process comes to its visit as it was at the start of the tick or was spawned, but for the state the last action since then set that addresses it, and is left as its behaviour and the later actions say. Whatever the processes spawn, signal and become, a tick without a runtime error visits every process there was and every one spawned exactly once, runs exactly the due ones, removes exactly the dead ones, and leaves the others; it ends in an error exactly when the last behaviour it ran does, and then nothing is left. |
| `Scheduler.VM.Execute` | libzen/src/vm.cpp:2104-2143 | Without an error, every other slot has the state set by the last action that addresses it, by id, kind or `let me alone`, and no other change; every spawn adds its slot; and the running one is left as its behaviour says. |
| `Scheduler.VM.Act` | libzen/src/vm.cpp:2095-2143 | What one action does to every slot of the pool. |
| `Scheduler.VM.SpawnProcess` | libzen/src/vm.cpp:1930-2040 | A ready process with the next id behind the others, its parent told; a generic body is a runtime error. |
| `Scheduler.VM.RuntimeError` | libzen/src/vm.cpp:1095-1112 | The error is noted and the running process, if any, dies of it. |
| `Scheduler.VM.SignalProcess` | libzen/src/vm.cpp:2111-2121 | Exactly the process with the id changes, to the signal's state. |
| `Scheduler.VM.SignalType` | libzen/src/vm.cpp:2123-2133 | Exactly the processes of the kind change. |
| `Scheduler.VM.KillOthers` | libzen/src/vm.cpp:2135-2143 | Exactly the processes other than the running one are done. |
| `Scheduler.VM.Gate` | libzen/src/vm.cpp:2183-2203 | Whether the process is due, its waiting time counted. |
| `Scheduler.SignalsDecide` | libzen/src/vm.cpp:2100-2121 | The last action that addresses a process before its visit decides: a killed one is removed without running, a frozen or sleeping one is passed over, a woken one runs when it is due. |
| `Scheduler.ToldSinceStart` | libzen/src/vm.cpp:2158-2265 | A process of the start of the tick comes to its visit in the state that all actions so far leave it in. |
| `Upvalues.Fiber.Capture` | libzen/src/vm.cpp:934-973 | The slot's open upvalue if it has one, else a new one put at its place in the descending list; the others stay. |
| `Upvalues.Fiber.Close` | libzen/src/vm.cpp:975-984 | Exactly the upvalues at or above the slot are closed, and every one still shows its variable's value. |
| `Upvalues.Fiber.SetSlot` | libzen/src/vm.cpp:934-973 | Assigning to a local shows through its open upvalue and no other. |
| `Upvalues.CaptureTwice` | libzen/src/vm.cpp:934-973 | Capturing a slot twice gives the same upvalue. |
| `Captures.Resolver.ResolveUpvalue` | libzen/src/compiler.cpp:680-709 | The index given leads by the descriptors to the nearest enclosing variable of the name, which is flagged as captured; -1 exactly when there is none. |
| `Captures.Resolver.AddUpvalue` | libzen/src/compiler.cpp:659-678 | The descriptor's one index; overflow is reported exactly when it is new and there is no room. |
| `Captures.Resolver.ResolveLocal` | libzen/src/compiler.cpp:647-657 | The register of the latest declaration of the name, or -1. |
| `Captures.ResolvesRight` | libzen/src/compiler.cpp:680-709 | An index that resolves a name reaches the variable the name means. |
| `Captures.ResolvesOnce` | libzen/src/compiler.cpp:659-678 | A name resolves to one index only. |
| `Captures.FollowGrows` | libzen/src/compiler.cpp:659-709 | Later captures do not change what an index reaches. |
| `Captures.ResolvesGrows` | libzen/src/compiler.cpp:659-709 | Nor what a name resolves to. |
| `Legality.ScriptRefused` | libzen/src/compiler.cpp:711-827 | A script is compiled exactly when it leaves and continues loops only inside loops, declares no name twice in a block, has at most 16 loops around one another, 256 breaks to a loop and 256 conditions to an `if`, and takes at most 250 registers; the limit of 256 locals is never reached. |
| `Legality.TokensRefused` | libzen/src/compiler.cpp:406-483 | The same from the tokens on. |

## Left out

- SinglePass.Compiler.CompileScript: does not make the last check of the source, which also rejects a script that reads a global nothing declares or assigns; the code of the scripts it accepts does not depend on it.
- SinglePass.Compiler.PrintStatement: one value only; `print` of none or of several is left out.
- SinglePass.Compiler.Number: float literals are left out.
- SinglePass.Compiler.StringLiteral: the token carries the characters meant; escapes and interpolation are left out.
- Scripts.ScriptCorrect: states nothing for scripts with a fold trap or an assignment inside an expression; what the code computes at a fold trap depends on what a register last held, which `PeepholeTraps.FoldExact` says for a trap at the top of an expression.
- Values.FusionExact: class instances are not among the values, so operator overloading, which the fused equality instructions honour and the fused orderings ignore, is not covered.
- Values.ImmediateExact: class instances are not among the values, so `__add__`, `__sub__` and `__str__` are not covered.
- Legality.ScriptRefused: the limit on the number of global variables is left out.
- Collector.Gc.Collect: the roots are a list; gathering them from the fibers, the globals and the process pool is left out. The source follows neither a struct's definition nor the names a definition holds, so nothing is said of those.
- Sorting.SortInts: states nothing for arrays of more than 16 values some of which do not fit 32 bits, where the code can read outside the array.
- Json.RoundTrip: floats are not in it, because `%.17g` and `strtod` are not modelled; maps have string keys only.
- JsonIO.ParseText: like `JsonIO.Parser.ParseNext`, it accepts floats that `strtod` finds out of range.
- JsonIO.Parser.ParseNext: a float is kept as its text, so the source's refusal of one that `strtod` finds out of range is missing.
- Csv.WhatComesBack: rows given as single values instead of arrays, float cells, and separators that are a quote or a line break are not in it.
- Scheduler.VM.Tick: the start, update and end callbacks are left out, the frame time is an integer number of milliseconds, and a runtime error is never trapped by `pcall`.
- Utf8.EncodeArray: the elements are integers; the source also refuses arrays with anything else.
- ArenaAllocator.Arena.Alloc: memory is a map from addresses to cells, a pointer occupying the cell at its first byte; alignment and running out of memory are left out.
- HashTable.HashMap.Put: key equality stands for having the same hash and comparing equal, and capacities are unbounded.
- Upvalues.Fiber.Capture: the fiber's stack does not move.
- Language constructs: function calls, lambdas, generics, classes and structs, arrays, maps and indexing, compound assignment, `in`, `is`, `switch`, `for` and its fused loops, `del`, includes, and the code that creates and reads upvalues.
- After a compile error only the unwinding is modelled, not which further messages appear.
- Line tables, source positions and error texts.
- Dumped classes, selectors and global names in bytecode files, and the file header.
- Fibers as coroutines, growing of their stacks, and native extensions.
