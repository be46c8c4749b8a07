# Lovax, verified

A Dafny model of the algorithmic cores of the Lovax language runtime, with proofs. Each core has a
simple reference meaning, and the code is proved to agree with it:

- the register-allocating loop compiler (`JitWords`, `JitMachine`, `JitRegion`, `JitExits`, `JitRuns`,
  `JitCompiler`, `JitLoops`, `JitContinues`, `JitChoices`, `JitBoundary`): emitted register code is simulated
  by the bytecode machine, at every exit, and exactly where it is not;
- the operators that trees, stack machine and compiled loops share (`OperatorLaws`): what they compute, bit by
  bit and by the laws of division;
- the bytecode compiler (`Bytecode`, `Tree`, `TreeFinally`, `Codegen`, `CodegenLayout`, `CodegenExprs`,
  `CodegenExits`, `CodegenStmts`, `CodegenMain`, `CompilerEmission`, `CompilerLists`, `BytecodeCompiler`):
  compiled functions do what their syntax trees mean;
- the regular expressions (`RegexMeaning`, `RegexCompile`, `RegexReading`, `RegexMachine`, `RegexCompiler`,
  `RegexMatcher`, `RegexApi`): a pattern is read exactly as its text says, a match is found exactly when the
  pattern's meaning has one, and it is the preferred one;
- the incremental collector (`GcModel`, `GcSafety`, `GcCycles`, `GcProgress`, `GcHeap`): safety, completeness and
  progress over runs;
- the ordered hash map (`OrderedMap`), an association list with an index;
- the expression parser (`PrattGrammar`, `PrattSpec`, `PrattProofs`, `PrattAst`, `PrattParser`): exactly the trees
  that the precedence table allows and the tokens spell;
- the x86-64 assembler (`X64Encoding`, `X64RoundTrip`, `X64Assembler`), inverted by a decoder written from
  sections 2.1.5 and 2.2.1 of volume 2A of the Intel SDM;
- texts and dates: JSON (`JsonText`, `JsonRoundTrip`, `JsonGrammar`, `JsonCursor`; RFC 8259, and UTF-8 as in
  section 3 of RFC 3629, `Utf8Laws`),
  the calendar and `format`/`parse` (`Calendar`, `Numerals`, `DateTime`; proleptic Gregorian, section 3.2.1
  of ISO 8601:2004), combinations and permutations (`Iters`), CSV (`Csv`; quoting as in section 2 of
  RFC 4180). `Options` holds the one shared datatype.

The pattern is the same throughout. Code that changes state is a class or a method with the source's
fields and loops; its contract ties the result to a specification function or relation; lemmas then prove
what that specification is for. Characters stand for bytes. `dafny verify dfyconfig.toml` checks everything:
the file only tells Dafny that every `.dfy` file here belongs to the project.

## Findings

Four promises do not hold for all inputs. Each has a lemma with inputs for which it fails, and the exact
condition under which it holds.

- A `catch` block that throws leaves its `try` without running the `finally` block
  (src/vm/compiler.hpp:737-754: the scope is marked dead before the `catch` block is compiled, and an error has
  no handler there). `CodegenMain.CatchThrowSkipsFinally` shows it for every `catch` block that throws for
  some state and every non-empty `finally`; `CodegenMain.ThreeIsNotSaid` is one such program.
  `CodegenMain.FinallyRuns`: every `finally` runs exactly once, innermost first, if and only if in the
  reference run no `catch` block in front of a `finally` throws. `CodegenMain.CoveredFinallyRuns` gives a
  condition on the text of the program alone.
- The loop compiler accepts loops with conditional expressions, and translates them wrongly, since it counts
  operands along the code (src/jit/compile_ra.hpp:213-268 and 292-447) and a conditional expression ends twice.
  - `JitBoundary.ConditionalIsMistranslated`: `while i < n: x = i < n ? 7 : 8; i = n`, entered with 0 and 1, is
    accepted, and whatever the collector's flag says, its code leaves a state that the interpreter never has.
    If the flag is clear, `x` is 1 behind the loop, which is `n`, not 7; if it is set, there is an operand too many
    at the loop's start. `JitBoundary.TurnAgreesExactly` says for which frames, constants and flags this loop is
    right. (The VM enters compiled code with the flag clear, and expects it to stay so, src/vm/vm.hpp:1338-1343.)
  - `JitChoices.RegularExactly`: an accepted loop is regular, that is, its jumps arrive with as many operands as
    were counted, if and only if no conditional expression stands in it. Regular regions are translated
    faithfully (`JitRuns.RegionRuns`).
  - `JitChoices.LoopLeaves`: at the jump back, the flag set, every accepted loop leaves one operand for each of its
    conditional expressions, less one for each branch of a `match`; the interpreter has none there.
- `parse` undoes `format` exactly for the years 0 to 9999 (`DateTime.ParseUndoesFormat`), and does not know
  `%w`, which `format` does (`DateTime.WeekdayIsNotRead`).
- A table written as CSV comes back exactly if the separator is no newline, no row is empty, and, should the
  separator be the quote, no field before the last of its row is empty or needs quotes (`Csv.ComesBack`).

## Model

| member | source | states |
|---|---|---|
| JitRuns.RegionRuns | src/jit/compile_ra.hpp:209-471 | for every accepted regular region, frame, register contents and collector flag at each back edge: the register code is never stuck, and when it returns, the interpreter started at the same place reaches the returned address with exactly the locals, operands and `sp` left in memory |
| JitRuns.RegionStops | src/jit/compile_ra.hpp:209-471 | the register code does return, unless the interpreter keeps running in the region for as many steps as one likes |
| JitRuns.InstrRuns | src/jit/compile_ra.hpp:292-447 | from any instruction boundary the code of that instruction leads to the next boundary, or out, as one interpreter step does; unboxed values stay within 47 bits |
| JitRuns.ModRuns | src/jit/compile_ra.hpp:292-447 | the corrected hardware remainder is the language's floored remainder |
| JitRuns.EntryRuns | src/jit/compile_ra.hpp:279-289 | the prologue reaches the first boundary with every local unboxed, or leaves at once with the frame untouched when a local is no integer |
| JitExits.BailRuns | src/jit/compile_ra.hpp:115-133 | an exit writes every pending operand and local back, boxed without loss, publishes `sp`, and returns the given address |
| JitWords.BoxUnbox | src/jit/compile_ra.hpp:115-119 | a 47-bit integer survives boxing and unboxing |
| JitWords.FlooredRemainder | src/object/object.hpp:235-254 | adding the divisor when remainder and divisor differ in sign turns the truncated remainder into the floored one |
| JitCompiler.RegionCompiler.Compile | src/jit/compile_ra.hpp:209-471 | succeeds exactly for accepted regions, and leaves exactly the code whose runs are proved right |
| JitCompiler.RegionCompiler.Classify | src/jit/compile_ra.hpp:213-268 | the first pass refuses exactly unsupported code, and otherwise finds the used slots in order and the greatest depth |
| JitCompiler.RegionCompiler.EmitBody | src/jit/compile_ra.hpp:292-447 | the second pass refuses exactly a remainder by zero, and otherwise emits each instruction's code and records every address |
| JitCompiler.RegionCompiler.EmitBail | src/jit/compile_ra.hpp:124-133 | emits the exit that `BailRuns` is about |
| JitLoops.LoopIsRegular | src/vm/compiler.hpp:355-366 | every `while` loop that the bytecode compiler emits, that the loop compiler accepts, and in which no conditional expression stands is a regular region: instruction boundaries, operand counts, slots and all jump targets, those of inner loops, breaks and continues included |
| JitLoops.LoopRuns | src/jit/compile_ra.hpp:209-471 | both compilers together: for such a loop, wherever it stands in a compiled function, the register code agrees with the interpreter at every exit, and returns unless the interpreter stays in the loop |
| JitLoops.LoopFits | src/vm/compiler.hpp:355-366 | the loop's code starts and ends without operands, and so do all jumps in it |
| JitContinues.ContinueIsRegular | src/vm/vm.hpp:1334-1378 | a region formed at the jump back of a `continue`, from the loop's start to behind it, is regular too, if the loop compiler accepts it and no conditional expression stands in the loop, whatever follows the `continue` |
| JitContinues.ContinueRuns | src/jit/compile_ra.hpp:209-471 | for such a region, too, the register code agrees with the interpreter at every exit, and returns unless the interpreter stays in it |
| JitChoices.RegularExactly | src/jit/compile_ra.hpp:213-268 | the count of operands along the code is right, for an accepted loop of the bytecode compiler, if and only if no conditional expression stands in it |
| JitChoices.ConditionalMisses | src/vm/compiler.hpp:1019-1028 | wherever a conditional expression's code passes the first pass, a jump in it leads to an address for which another number of operands was counted |
| JitChoices.LoopCounts | src/jit/compile_ra.hpp:213-268 | along the code of a loop that passes, the counted operands add up to the number of its conditional expressions less that of its `match` branches |
| JitChoices.LoopLeaves | src/jit/compile_ra.hpp:433-443 | at the jump back of any accepted loop, the collector's flag set, the code leaves for the loop's start with exactly that many operands; without `match`, with none if and only if no conditional expression stands in the loop |
| JitChoices.BackEdgeLeaves | src/jit/compile_ra.hpp:433-443 | a jump back that finds the flag set boxes and publishes the counted operands and the locals, in any region |
| JitBoundary.ConditionalIsMistranslated | src/jit/compile_ra.hpp:213-268 | a loop that is accepted, a frame that enters it, and a run whose exit matches no state of the interpreter, for every behaviour of the collector's flag |
| JitBoundary.TurnAgreesExactly | src/jit/compile_ra.hpp:209-471 | for all slots, constants, frames and flags: this loop's code agrees with the interpreter at every exit if and only if its body is not entered or, the flag clear, the value to be assigned happens to be the one in the next register |
| JitBoundary.TurnCompiles | src/vm/compiler.hpp:355-366 | that region is what the bytecode compiler emits for this loop, the first code of its function |
| Bytecode.FetchEncoded | src/vm/chunk.hpp:15-102 | every instruction is fetched as it was encoded, operands and immediates included |
| Bytecode.InverseNegates | src/vm/compiler.hpp:598-643 | a comparison and its inverse fail together and otherwise disagree |
| OperatorLaws.BitwiseOperators | src/vm/vm.hpp:1273-1275 | on any 64-bit integers, negative ones included: bit k of the or, the and, the exclusive or is set exactly if bit k of either, of both, of exactly one operand is |
| OperatorLaws.WordsByBits | src/vm/vm.hpp:1273-1275 | 64-bit integers with the same bits are equal, so these laws fix the results |
| OperatorLaws.ComplementOperator | src/vm/vm.hpp:1320-1326 | `~a` turns every bit over |
| OperatorLaws.ShiftOperators | src/vm/vm.hpp:1276-1293 | `a << n` moves every bit up and drops those above 64, `a >> n` moves them down and repeats the sign; amounts outside 0 to 63 are errors |
| OperatorLaws.DivisionOperators | src/vm/vm.hpp:1188-1222 | `a // b` and `a % b` fail together, exactly for b = 0; else `(a // b) * b + a % b` is a, and the remainder is 0 or has the sign of b, and is smaller than b |
| OperatorLaws.ArithmeticOperators | src/object/object.hpp:235-254 | sum, difference, product and negation are the 64-bit integers that differ from the exact ones by a multiple of 2 to the 64 |
| OperatorLaws.ComparisonOperators | src/vm/vm.hpp:1254-1257 | six comparisons from one order |
| OperatorLaws.WhatIsFalse | src/vm/value.hpp:45-54 | of the values modelled, exactly 0, `false` and `null` count as false |
| CodegenMain.FunctionRuns | src/vm/compiler.hpp:1176-1228 | compiled code returns, throws and says what the body means, with the same locals, and runs at least as long as the body does |
| CodegenMain.FunctionStops | src/vm/compiler.hpp:1176-1228 | conversely, what the machine stops with is the body's meaning |
| CodegenMain.FunctionProper | src/vm/compiler.hpp:1176-1228 | no jump of a finished function is left open, and every operand lies in the frame |
| CodegenStmts.StmtRuns | src/vm/compiler.hpp:299-417 | a statement's code, in place, brings about each outcome of the statement: normal end, break, continue, return, error, divergence |
| CodegenStmts.WhileRuns | src/vm/compiler.hpp:355-366 | the same for `while` and `until` with their exits |
| CodegenStmts.MatchRuns | src/vm/compiler.hpp:645-682 | the same for `match`; the subject is gone from the stack whichever branch is taken |
| CodegenStmts.TryFinallyRuns | src/vm/compiler.hpp:716-738 | the same for `try` with `finally`, on the normal path, on the error path and on jumps out |
| CodegenStmts.TryCatchRuns | src/vm/compiler.hpp:740-755 | the same for `try` with `catch` |
| CodegenStmts.AfterScope | src/vm/compiler.hpp:103-112 | a jump out of a scope drops its handler, runs its `finally` block and goes on to the scopes around it |
| CodegenExprs.ExprRuns | src/vm/compiler.hpp:935-1142 | an expression's code pushes its value on an otherwise unchanged stack, or raises what it raises |
| CodegenExprs.CondRuns | src/vm/compiler.hpp:598-643 | a condition's jump is taken exactly when it does not hold, inverted or not, fused with a comparison or not |
| CodegenExits.ClosedCode | src/vm/compiler.hpp:370-404 | a block whose jumps stay inside compiles to the same code wherever it stands |
| CodegenLayout.ResolveTwice | src/vm/compiler.hpp:162-182 | resolving the targets of an enclosing loop does not disturb jumps that are resolved already |
| CodegenMain.FinallyRuns | src/vm/compiler.hpp:73-112 | the machine runs every `finally` exactly once, innermost first, if and only if in the reference run no `catch` block throws past one; then it does what that run does |
| CodegenMain.CoveredFinallyRuns | src/vm/compiler.hpp:716-755 | it does for all inputs when, by the text of the body, no `catch` block in front of a `finally` can raise |
| CodegenMain.CatchThrowSkipsFinally | src/vm/compiler.hpp:740-755 | for every `catch` block that throws for some state, and every `finally`, a program and a call whose `finally` is never started |
| CodegenMain.ThreeIsNotSaid | src/vm/compiler.hpp:740-755 | one such program: its `finally` should say 3 and does not |
| TreeFinally.NestedExactly | src/vm/compiler.hpp:73-112 | the reference run always nests its `finally` blocks; a run nests them if and only if it is the reference run, if and only if nothing escapes there |
| TreeFinally.QuietRuns | src/vm/compiler.hpp:299-417 | what is quiet by its text never throws |
| TreeFinally.CoveredNests | src/vm/compiler.hpp:716-755 | covered code runs like the reference and runs every `finally` exactly once |
| BytecodeCompiler.Compiler.CompileFunction | src/vm/compiler.hpp:1176-1228 | succeeds exactly if every operand and jump fits its field and there are at most 65536 slots, and then leaves exactly the code and constants proved right, all of them bytes |
| BytecodeCompiler.Compiler.CompileExpression | src/vm/compiler.hpp:935-1142 | appends the expression's code, fused instructions included, or refuses when a constant or jump does not fit |
| BytecodeCompiler.Compiler.EmitCondJump | src/vm/compiler.hpp:598-643 | appends a condition with an open jump and gives the address of its operand |
| BytecodeCompiler.Compiler.PatchJump | src/vm/compiler.hpp:167-174 | fills in the distance to the end of the code, refusing one of more than 65535 |
| BytecodeCompiler.Compiler.EmitLoop | src/vm/compiler.hpp:175-182 | appends the jump back, refusing one of more than 65535 |
| BytecodeCompiler.Compiler.CompileStatement | src/vm/compiler.hpp:299-417 | appends the statement's code, jumps of enclosing loops still open, and restores the scopes |
| BytecodeCompiler.Compiler.CompileWhile | src/vm/compiler.hpp:355-366 | all breaks of the finished loop lead to its end, all continues to its start |
| BytecodeCompiler.Compiler.CompileMatch | src/vm/compiler.hpp:645-682 | all branches lead to the end, all patterns to their branch or to the next one |
| BytecodeCompiler.Compiler.EmitFinallyUnwind | src/vm/compiler.hpp:103-112 | appends, innermost first, the exits of the scopes being left, and restores the scopes |
| BytecodeCompiler.Compiler.CompileTryFinally | src/vm/compiler.hpp:716-738 | appends the `finally` block twice, the handler leading to the second copy |
| BytecodeCompiler.Compiler.CompileTryCatch | src/vm/compiler.hpp:740-755 | appends guarded body, handler and merge; both open jumps lead where they should |
| CompilerLists.BreaksPatched | src/vm/compiler.hpp:355-381 | patching the recorded breaks is the same as having known the loop's end |
| CompilerLists.SmallCells | src/vm/compiler.hpp:128-154 | what passes the range checks is made of bytes |
| RegexMatcher.Matcher.MatchAt | src/modules/regex.hpp:432-435 | true: the captures are the preferred match from there, every group unset or ordered inside it; false within budget: no match from there exists |
| RegexMatcher.Matcher.Run | src/modules/regex.hpp:379-429 | success is the first accepting run in order of priority, failure within budget means there is none and leaves the captures alone; terminates within the budget |
| RegexMatcher.Matcher.Advance | src/modules/regex.hpp:379-429 | the instructions without choice; each moves forward, or back to a SPLIT, so a step is paid for every round |
| RegexMatcher.Matcher.RunSave | src/modules/regex.hpp:379-429 | a slot is set for what follows and restored if that fails |
| RegexMatcher.Matcher.ClassMatches | src/modules/regex.hpp:33-43 | a character is in a class if some range holds it, or none when negated |
| RegexMeaning.InterpSound | src/modules/regex.hpp:379-429 | what choices reach is in the pattern's relational meaning |
| RegexMeaning.InterpComplete | src/modules/regex.hpp:379-429 | whatever the meaning relates, some choices reach |
| RegexMachine.ProgramRuns | src/modules/regex.hpp:91-100 | the program on any choices does what the pattern does on them |
| RegexMachine.EmitRuns | src/modules/regex.hpp:101-261 | the same for every fragment wherever it is placed |
| RegexMachine.PreferredIsUnique | src/modules/regex.hpp:432-435 | at most one match is the preferred one |
| RegexMachine.PreferredShape | src/modules/regex.hpp:401-435 | groups of a preferred match are wholly unset or ordered inside it |
| RegexCompile.EmitMoves | src/modules/regex.hpp:101-135 | a fragment copied elsewhere is the code compiled there |
| RegexCompile.EmitClosed | src/modules/regex.hpp:195-252 | jumps of a fragment stay inside it, so it may be copied and shifted |
| RegexReading.ReadsWhatItSays | src/modules/regex.hpp:91-366 | for every pattern text: the tree read is one that the grammar has for this text, any other that it has differs only in how classes are listed, and the pattern is refused exactly if the grammar has none; the grammar relates text to trees, with alternatives, sequences, groups numbered from the left, quantifiers, classes and escapes |
| RegexReading.QuantifierMeans | src/modules/regex.hpp:147-181 | an atom with `*`, `+`, `?`, `{m}`, `{m,}` or `{m,n}` behind it means n matches of the atom one after the other for the counts n written, lazy exactly if a `?` follows; it is refused exactly if a count is above 1000 or the second below the first |
| RegexReading.QuantifierChooses | src/modules/regex.hpp:195-252 | rounds that must be made are made without a choice; then the first choice is to go on, with a `?` to stop, until the upper count is reached |
| RegexReading.NoQuantifierMeans | src/modules/regex.hpp:147-181 | where no quantifier stands, a malformed brace included, an atom is a piece by itself |
| RegexReading.AtomMeans | src/modules/regex.hpp:263-366 | anchors, dot, plain and escaped characters, `\d`, `\w`, `\s` and their complements, as sets of characters |
| RegexReading.ClassMeans | src/modules/regex.hpp:292-336 | a bracketed class takes one character that one of its elements covers: a character, a range, a shorthand; negated, one that none covers |
| RegexReading.PlainTextMeans | src/modules/regex.hpp:91-366 | text without special characters is a pattern that matches exactly itself |
| RegexReading.AlikeMeans | src/modules/regex.hpp:33-43 | trees whose classes have the same members match the same |
| RegexCompiler.Compiler.Compile | src/modules/regex.hpp:91-100 | success leaves the program of the pattern read (`RegexReading.ReadsWhatItSays` says which that is); a refusal means that the pattern cannot be read, or that more than 10000 instructions had been emitted |
| RegexCompiler.Compiler.ParseAlt | src/modules/regex.hpp:101-135 | inserting the SPLIT and shifting the left branch gives the code of the alternation |
| RegexCompiler.Compiler.ParseSeq | src/modules/regex.hpp:137-145 | gives the code of the sequence read |
| RegexCompiler.Compiler.ParsePiece | src/modules/regex.hpp:147-181 | gives the code of the atom with its quantifier, braces that form none being literals (`RegexReading.QuantifierMeans` says what that means) |
| RegexCompiler.Compiler.ReadIntBound | src/modules/regex.hpp:183-193 | reads a bound of at most 100000 |
| RegexCompiler.Compiler.ApplyRepeat | src/modules/regex.hpp:195-252 | the copies with their patched jumps are the code of the repetition |
| RegexCompiler.Compiler.ParseAtom | src/modules/regex.hpp:263-366 | gives the code of the atom read, groups numbered from the left |
| RegexCompiler.Compiler.ParseClass | src/modules/regex.hpp:263-366 | gives the class with its ranges, or fails where the reading does |
| RegexApi.Match | src/modules/regex.hpp:479-489 | the preferred match at the start of the text, or null if there is none, and this for every tree that the pattern's text says |
| RegexApi.Search | src/modules/regex.hpp:492-507 | the leftmost place with a match and the preferred one there, or that no place has one |
| RegexApi.FindAll | src/modules/regex.hpp:536-557 | the texts of the one leftmost scan of the text |
| RegexApi.ScanIsUnique | src/modules/regex.hpp:536-557 | a text has only one such scan |
| RegexApi.ScanSkipsNothing | src/modules/regex.hpp:536-557 | at every place where none of the scan's matches stands, the pattern does not match |
| RegexApi.Replace | src/modules/regex.hpp:560-604 | the text with each match of the scan replaced; replacing with `$0` gives the text back |
| RegexApi.ReplaceBySelf | src/modules/regex.hpp:560-604 | replacing every match by itself changes nothing |
| RegexApi.DollarDigit | src/modules/regex.hpp:577-592 | `$` and a digit, anywhere in the replacement, insert what that group matched, or nothing if there is no such group or it took no part |
| RegexApi.TwoDollars | src/modules/regex.hpp:577-592 | `$$` is a dollar; what stands around it is expanded as by itself |
| Utf8Laws.DotTakesCodePoint | src/modules/regex.hpp:389-395 | a dot takes exactly the bytes of one code point, of any but the newline |
| RegexApi.Split | src/modules/regex.hpp:607-634 | the pieces between the non-empty matches; woven with what was removed they are the text |
| RegexApi.PiecesWeave | src/modules/regex.hpp:607-634 | pieces and removed matches concatenate to the text |
| GcSafety.RunIsSafe | src/object/object.hpp:82-233 | over every interleaving of stores, root changes, allocations, slices and collections: the invariant holds and what the roots reach is allocated |
| GcSafety.GcStepInv | src/object/object.hpp:165-204 | a slice keeps the invariant: while marking no black object points to a white one and the worklist is the grey set |
| GcSafety.StoreInv | src/object/object.hpp:93-98 | so does a store behind the write barrier |
| GcSafety.SetRootsInv | src/object/object.hpp:178-190 | so does a change of roots without a barrier, by the rescan that ends marking |
| GcSafety.AllocInv | src/vm/gc.hpp:191-222 | so does an allocation, white, or newborn during a sweep |
| GcCycles.CycleFreesGarbage | src/object/object.hpp:109-202 | what is unreachable when a cycle begins is gone when it ends, whatever the slicing |
| GcCycles.SweepKeepsMarked | src/object/object.hpp:121-160 | the surviving list is the newborns, then the marked objects in order, all white, and `sweepLive` is the sum of their sizes |
| GcCycles.CollectorKeepsGraph | src/object/object.hpp:165-233 | the collector changes neither roots nor what a reachable object holds |
| GcProgress.BeginGreysRoots | src/object/object.hpp:165-177 | a slice of any budget, from rest, begins marking, no root left white |
| GcProgress.EverySlicingEnds | src/object/object.hpp:165-204 | from any state with the invariant, after at most `Work` slices of any positive budgets, the cycle has ended and been counted |
| GcProgress.CollectCounts | src/object/object.hpp:206-233 | a whole collection ends one cycle, from any phase |
| GcProgress.GarbageGoes | src/object/object.hpp:165-204 | what is unreachable, in whatever phase, is gone after so many slices, of any positive budgets, without any further condition |
| GcProgress.CollectFrees | src/object/object.hpp:206-233 | and at once after a whole collection from rest |
| GcHeap.Heap.MarkObject | src/object/object.hpp:82-91 | a white object turns grey and joins the worklist |
| GcHeap.Heap.MarkStep | src/object/object.hpp:109-118 | a slice of marking, true exactly when nothing is left grey |
| GcHeap.Heap.SweepStep | src/object/object.hpp:121-142 | a slice of sweeping; however it is sliced, the whole sweep is the same |
| GcHeap.Heap.FinishCycle | src/object/object.hpp:144-160 | splices the newborns in front and rests |
| GcHeap.Heap.GcStep | src/object/object.hpp:165-204 | one slice of whichever phase it is, keeping the invariant (`GcProgress.EverySlicingEnds`: slices get the cycle done) |
| GcHeap.Heap.GcCollect | src/object/object.hpp:206-233 | the rest of the cycle at once, from any phase |
| GcHeap.Heap.Shade | src/object/object.hpp:93-98 | marks only while marking is under way |
| GcHeap.Heap.Alloc | src/vm/gc.hpp:191-222 | a fresh white object on the list, or on the newborn list during a sweep |
| OrderedMap.MapObject.Set | src/object/object.hpp:867-896 | the entries become what insertion makes of them, and every key stays reachable on its probe chain below 70% load |
| OrderedMap.MapObject.SetIndexed | src/object/object.hpp:852-896 | the same for indexed keys, growing the index first when needed |
| OrderedMap.MapObject.Get | src/object/object.hpp:898-918 | answers like the association list |
| OrderedMap.MapObject.Remove | src/object/object.hpp:920-948 | the entries become what deletion makes of them, true exactly if the key was there |
| OrderedMap.MapObject.Clear | src/object/object.hpp:832-836 | no entries, no index |
| OrderedMap.MapObject.CopyFrom | src/object/object.hpp:826-831 | the same entries and a valid index of its own |
| OrderedMap.MapObject.ProbeSlot | src/object/object.hpp:763-773 | ends, at the key's slot if it is there and else at a free slot of its chain |
| OrderedMap.MapObject.IndexGrow | src/object/object.hpp:776-787 | a larger table seats the same positions |
| OrderedMap.MapObject.RebuildIndex | src/object/object.hpp:790-815 | any list of distinct keys gets a valid index |
| OrderedMap.LookupInsert | src/object/object.hpp:852-896 | a key just set is found with its value, others as before |
| OrderedMap.LookupDelete | src/object/object.hpp:920-948 | a key just removed is not found, others as before |
| OrderedMap.OrderKept | src/object/object.hpp:852-948 | setting keeps a known key's place and puts a new one last; removing keeps the others' order |
| PrattProofs.ParsesExactly | src/parser/parser.hpp:859-919 | a tree and a rest are returned exactly if the tree yields the consumed tokens, fits the precedence table, and what follows does not belong to it |
| PrattProofs.TreeIsUnique | src/parser/parser.hpp:859-919 | there is never a second tree, nor a second place to stop |
| PrattProofs.Neighbours | src/parser/parser.hpp:13-32 | of two operators side by side, any operands around them, the tighter takes the operand between; of two equally tight ones the first, for `**` the second |
| PrattProofs.ExprSound | src/parser/parser.hpp:859-1371 | what is returned yields the consumed tokens and fits |
| PrattProofs.ExprRead | src/parser/parser.hpp:859-1371 | every fitting tree is returned for its tokens |
| PrattAst.ParsesAst | src/parser/parser.hpp:859-1371 | for all tokens: a tree of the parser's own, without grouping parentheses, is returned for the first n tokens exactly if the grammar lets these tokens write it there: parts in order, operators between them, parentheses around any part, each operand with the operator that binds it, nesting and chains within their limits |
| PrattAst.AstIsUnique | src/parser/parser.hpp:859-1371 | no tokens write two trees |
| PrattAst.ThreeOperands | src/parser/parser.hpp:13-32 | for all pairs of operators, by their place on the ladder of the language: in `a op1 b op2 c` the tighter one takes b; on one rung the first, of two `**` the second |
| PrattAst.PrefixThenInfix | src/parser/parser.hpp:965-981 | of `-a op b` and `~a op b` only `**` belongs under the sign, of `not a op b` all that is tighter than `and` |
| PrattAst.AroundIf | src/parser/parser.hpp:1323-1339 | `a op1 b if c else d op2 e` is a conditional expression, whatever the operators |
| PrattAst.CallsFirst | src/parser/parser.hpp:1341-1371 | a call is tighter than any operator before it |
| PrattParser.Parser.ParseExpression | src/parser/parser.hpp:859-919 | returns the tree that the consumed tokens write, by `PrattAst`'s grammar, with its last token current; reports an error exactly if they write none; the depth counter is restored |
| PrattParser.Parser.ParsePrefixAt | src/parser/parser.hpp:922-963 | the same for the first part of an expression |
| PrattParser.Parser.ParseUnaryAt | src/parser/parser.hpp:965-981 | the same for prefix operators |
| PrattParser.Parser.ParseGroupedExpression | src/parser/parser.hpp:983-1013 | the same for parentheses and tuples |
| PrattParser.Parser.ExtendAt | src/parser/parser.hpp:1304-1371 | the same for one operator and its right side, as the specification has it (`PrattAst.ParsesAst` says which side is which) |
| PrattParser.Parser.ParseConditional | src/parser/parser.hpp:1323-1339 | the same for the conditional expression |
| PrattParser.Parser.ParseCallArguments | src/parser/parser.hpp:1341-1371 | the same for the arguments of a call |
| PrattParser.Parser.ExpectPeek | src/parser/parser.hpp:176-188 | advances exactly if the next token is the expected one, else reports an error |
| X64Assembler.BufferDecodes | src/jit/emit_x64.hpp:48-215 | the buffer decodes to exactly the emitted instructions, each jump leading to its label's address, bound before or after |
| X64Assembler.BindPatches | src/jit/emit_x64.hpp:153-157 | patching the recorded fields is the same as having known the address |
| X64Assembler.LinkedAt | src/jit/emit_x64.hpp:200-209 | each field holds the distance from behind itself to its label |
| X64Assembler.Asm.Emit | src/jit/emit_x64.hpp:80-195 | the bytes of the instruction are appended |
| X64Assembler.Asm.Rex | src/jit/emit_x64.hpp:58-62 | the prefix is left out exactly when it would hold nothing |
| X64Assembler.Asm.ModrmMem | src/jit/emit_x64.hpp:67-77 | base and displacement for all 16 bases, a SIB byte for RSP and R12, a displacement always for RBP and R13 |
| X64Assembler.Asm.JumpTo | src/jit/emit_x64.hpp:150-152 | appends a jump whose field is filled in now or when its label is bound |
| X64Assembler.Asm.Ref | src/jit/emit_x64.hpp:200-205 | a bound label is filled in, an unbound one remembers the field |
| X64Assembler.Asm.PatchRel32 | src/jit/emit_x64.hpp:206-209 | four bytes change, to the distance from behind them |
| X64Assembler.Asm.Bind | src/jit/emit_x64.hpp:153-157 | the label is bound to the end and all its fields lead there |
| X64RoundTrip.InstructionReads | src/jit/emit_x64.hpp:58-195 | any instruction, in front of anything, is decoded as it was encoded |
| X64RoundTrip.ProgramReads | src/jit/emit_x64.hpp:58-195 | so is any sequence of them |
| X64RoundTrip.ModRmReads | src/jit/emit_x64.hpp:63-77 | so are register and memory operands, for every 32-bit displacement |
| JsonRoundTrip.JsonRoundTrip | src/modules/common.hpp:137-387 | every float-free value that is written reads back equal, with the order of its maps, to the end of the text |
| JsonRoundTrip.ValueReads | src/modules/common.hpp:218-231 | so does a value in front of anything that ends it |
| JsonRoundTrip.StringReads | src/modules/common.hpp:298-343 | every byte string survives its escapes |
| JsonRoundTrip.IntReads | src/modules/common.hpp:241-265 | every 64-bit integer survives its digits |
| JsonRoundTrip.EntriesAreOrderedMap | src/modules/common.hpp:363-386 | the parser fills maps as the ordered map does |
| JsonGrammar.ParsesExactly | src/modules/common.hpp:208-388 | for all texts and values: parsing gives this value if and only if the text writes it: the grammar of RFC 8259 with spaces, escapes, surrogate pairs and nesting up to 100, widened by control characters and lone second surrogates in strings, zeros in front of numbers and missing digits around points and exponents |
| Utf8Laws.WrittenDecodes | src/modules/common.hpp:267-282 | what is written for a code point decodes to it, whatever follows |
| Utf8Laws.DecodesWritten | src/modules/common.hpp:267-282 | and nothing else decodes to it |
| JsonCursor.JsonWrite | src/modules/common.hpp:137-204 | appends the value's text, or refuses exactly what has none: other objects, keys that are no strings, too deep nesting |
| JsonCursor.JsonParse | src/modules/json.hpp:22-38 | accepts exactly one value with spaces around it, by `JsonGrammar`'s grammar |
| JsonCursor.JsonParser.ParseValue | src/modules/common.hpp:218-231 | moves behind the value it reads, or notes an error, as the reading says |
| JsonCursor.JsonParser.ParseNumber | src/modules/common.hpp:241-265 | the same for numbers, those with fraction or exponent kept as text |
| JsonCursor.JsonParser.ParseString | src/modules/common.hpp:298-343 | the same for strings |
| JsonCursor.JsonParser.ParseUnicode | src/modules/common.hpp:298-343 | the same for an escaped code unit or surrogate pair |
| JsonCursor.JsonParser.ParseHex4 | src/modules/common.hpp:284-296 | the same for four hexadecimal digits |
| JsonCursor.JsonParser.ParseArray | src/modules/common.hpp:345-361 | the same for lists |
| JsonCursor.JsonParser.ParseObject | src/modules/common.hpp:363-386 | the same for maps |
| Calendar.DayRoundTrip | src/modules/datetime.hpp:19-40 | every day number comes back from its date, which is a valid date |
| Calendar.DateRoundTrip | src/modules/datetime.hpp:19-40 | every valid date comes back from its day number |
| Calendar.NextDayIsNext | src/modules/datetime.hpp:19-26 | the next calendar day has the next number |
| Calendar.DaysOrdered | src/modules/datetime.hpp:19-26 | earlier dates have smaller numbers |
| DateTime.SplitTimestamp | src/modules/datetime.hpp:43-60 | division mended for times before 1970 is the floor, for day, second and weekday |
| DateTime.Format | src/modules/datetime.hpp:174-208 | the loop writes what the format says, and fails exactly on an unknown directive |
| DateTime.Parse | src/modules/datetime.hpp:211-256 | the loop reads what the format says, and fails exactly where the text departs from it or a field is out of range |
| DateTime.Lockstep | src/modules/datetime.hpp:174-256 | writer and reader move over format and text together |
| DateTime.ParseUndoesFormat | src/modules/datetime.hpp:174-256 | with all six fields in the format, the timestamp comes back if and only if its year is 0 to 9999 |
| DateTime.ParseFillsIn | src/modules/datetime.hpp:211-256 | fields that the format leaves out are read as of the epoch |
| DateTime.WeekdayIsNotRead | src/modules/datetime.hpp:211-256 | `%w` is written but not read |
| DateTime.EpochIsZero | src/modules/datetime.hpp:43-60 | timestamp 0 is midnight, 1 January 1970 |
| DateTime.WeekdaysGoRound | src/modules/datetime.hpp:48-49 | that was a Thursday, Monday being 0; weekdays last a day and go round every seven, before 1970 too |
| DateTime.DirectivesWrite | src/modules/datetime.hpp:174-208 | each directive writes its own field, four digits for the year, two for the others, one for the weekday |
| DateTime.RangesAreChecked | src/modules/datetime.hpp:211-256 | for fields of any digits: the text is accepted exactly if month, day, hour, minute and second are in range, any month having 31 days, and gives their timestamp |
| DateTime.FieldTakes | src/modules/datetime.hpp:211-256 | a field takes as many digits as there are, up to its width |
| Iters.Combinations | src/modules/iters.hpp:69-97 | every strictly increasing tuple of indices exactly once, in lexicographic order |
| Iters.NothingBetween | src/modules/iters.hpp:91-95 | no combination lies between one and the next |
| Iters.Advance | src/modules/iters.hpp:91-95 | the last index that can grow does, those behind it follow as closely as possible |
| Iters.Permutations | src/modules/iters.hpp:100-138 | every injective tuple of indices exactly once, in lexicographic order, or an error, exactly if there are more than a million |
| Iters.Generator.Gen | src/modules/iters.hpp:121-136 | puts out exactly the permutations with the current prefix, in order, as many as the falling factorial says, and restores prefix and marks |
| Csv.CsvQuote | src/modules/file.hpp:12-25 | quotes exactly fields with separator, quote or line break, doubling quotes |
| Csv.WriteCsv | src/modules/file.hpp:336-346 | the rows' text |
| Csv.ReadCsv | src/modules/file.hpp:271-314 | the character loop computes what the text reads as |
| Csv.ComesBack | src/modules/file.hpp:271-346 | for every table and separator: a written table is read back if and only if the separator is no newline, no row is empty, and with the quote as separator no field before the last is empty or quoted |
| Csv.UsualSeparator | src/modules/file.hpp:271-346 | for any other separator exactly tables without empty rows come back, an empty row as one empty field |
| Csv.NewlineRunsTogether | src/modules/file.hpp:305-309 | with a newline as separator all rows are read as one |
| Csv.CrLfReads | src/modules/file.hpp:271-314 | a table whose lines end with a carriage return as well is read like one without |
| Csv.LaterQuoteReads | src/modules/file.hpp:271-314 | a quote inside a field that began without one is itself; text behind a closing quote belongs to the field |

## Left out

- Loop compiler: list indexing and list-base locals, saved registers and context pointers, and the other
  tiers (trace, method and function compilers). Labels are resolved by position; the assembler is modelled
  on its own.
- JitRuns.RegionRuns: asks for regular regions, that is, operands present and jumps that arrive with as many
  operands as were counted along the code; accepted loops without conditional expressions are.
- JitContinues.ContinueIsRegular: asks that no conditional expression stand anywhere in the loop, though only those
  before the `continue` would matter.
- Bytecode compiler: closures, structs, `use`, coroutines, `repeat`, script-level `for`, parallel `set`, floats,
  `/` and `**`, and operations on texts; the error for assigning to a `const`
  (src/vm/compiler.hpp:470-477); names are resolved to slots beforehand. `finally` blocks do not break or continue
  a loop around them.
- BytecodeCompiler.Compiler.CompileFunction: compiles a body with its slots already collected; default parameters
  (src/vm/compiler.hpp:1197-1210) and operands that refer to variables of enclosing functions are not modelled.
- CodegenMain.FunctionRuns: says nothing of a run that applies an operator to two texts, which the model does
  not give a meaning.
- Regular expressions: `groups`, and the cache of compiled patterns.
- Collector: object identities are never used again, sizes are fixed at allocation, the four vectors of roots
  are one, references are not null; pools, thresholds, timing and the re-entrancy flag are not modelled.
- Ordered map: the write barrier and the flags for frozen and module maps.
- Parser: indexing, members, literals of lists and maps, functions, the text of literals, error recovery.
- Assembler: labels are numbered instead of being objects of their own.
- JSON: floats are refused by the writer of the model, and kept as text by its reader.
- JsonCursor.JsonParser.ParseNumber: keeps the text of a number with fraction or exponent; that `std::stod`
  rejects some of these texts, such as `-.`, is not modelled.
- Dates: overflow of 64-bit timestamps, `now`, and the maps that hold the fields.
- Iters.Combinations: the cap on the size of the result is not modelled. It is computed in floating point, where
  an intermediate count can overflow and a small result be refused. (The count of permutations never rounds before it
  passes the limit, so their cap is.)
- CSV: cells are strings, so neither the text of other values nor a row that is no list is modelled, and
  files are not.
- Files, sockets, processes, the package manager, the command line, canvas and embedding: input and output.
- Small builtins such as minimum, clamp, case mapping and binary search: easy members.
