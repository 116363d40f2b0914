# Verification of the Pug compiler's regular-expression engine and its support code

The repository is a small Pug-to-HTML compiler that carries a complete regular-expression engine.
This project models the parts of it that are hard to get right and proves what they promise. It is
self-contained Dafny; `dafny verify dfyconfig.toml` checks all of it.

**The regular-expression engine** (`include/bellard/libregexp.c`). Patterns start as syntax trees.
`Semantics` gives their meaning after section 22.2.2 of ECMA-262: the outcomes (end position and
captures) of a term at a position, in order of preference. `Emission` says which bytecode each
construct gets, with real byte sizes and displacements; `Compiler` is the one-pass compiler that
produces these bytes in a buffer, inserting headers in front of code already there, copying atoms and
reversing terms; `Machine` is the instruction set as a step function with operand stack, captures and
backtrack stack; `Executor` is the interpreter loop over mutable arrays, with its backtrack stack
packed into one growing block (`BacktrackStack`). The main results are that compiled code produces
the outcomes of the semantics in the same order (`Correctness.TermYields`, `Program.ProgramCorrect`)
and no others (`Arrivals.TermExact`), that the imperative compiler and interpreter
do this end to end and stop (`Compiler.REParseState.Compile`, `Regexp.LreExec`), and that in every
state ever reached jumps land on instructions, the operand stack has the depth of the linear scan,
pending lookarounds match the static nesting, and no position splits a surrogate pair (`Reachable`,
`Positions`). `Standard` is the semantics of ECMA-262 itself, and `Conformance` and `Iterations` compare
the two. Classes with strings are a hash table (`StringList`) and its code (`ClassStrings`,
`StringEmission`, `ClassRuns`).

**Character sets** (`include/bellard/libunicode.c`). `Points` and `CharRanges` are the algebra of
endpoint arrays; `CaseConv` and `Canonicalization` are table-driven case conversion and the exact
image of a set under it; `PropTable` is the indexed run-length lookup; `SortCc` is canonical
ordering. Table contents are parameters, restricted by well-formedness predicates (`CaseConv.WellFormed`,
`PropTable.WellIndexed`).

**The leaves.** The machine and the semantics share the functions that read a character, test a word
boundary or update the flags, and so do other pairs of code and specification. What these leaves
must come to is stated without them: `Utf16` against a writer of UTF-16, `Edges` by index into the
subject, `Modifiers` by flag, `SetLaws` by how the set operations undo and make up each other,
`CaseLaws` by the table, by how the conversions of paired runs undo each other, and by the forms of
letters in Unicode, `TableFormat` against a writer of the packed tables, `ClassOrder` by the length of
what is read, `Literals` by where a literal stands in a text, `FlagBits` by the places of the bits, and
`PugNodes` by the kinds of the tokens.

**Sorting** (`include/bellard/cutils.c`): `RqSort`. **Trees from indentation**
(`include/pug/pug_parser.h`): `PugTokens`, `Preorder`, `PugTree`.

Where the code departs from what its names or the standard suggest, the model follows the code and
says exactly when it matters:

- Captures inside a quantified atom are reset once, when the quantifier is entered with a minimum of
  0, not before every iteration (`CaptureExample`). A walk over the pattern (`Leftovers`) lists the
  captures that can be left over. Unless a back reference reads one of them the code matches the same
  text as the standard, and in the groups not listed with the same captures (`Conformance.MatchTrails`);
  if none is listed the match is the standard's (`Conformance.MatchConforms`). The exact condition,
  for one quantifier, is that every iteration after which it can be left sets or resets what it finds
  captured (`Iterations.QuantConformsIff`).
- `re_string_find2` works out the bucket of a new string only if the set is not empty or the table
  grows. `StringList.REStringList.Find2` states the exact condition under which the table stays in
  order and the string can be found, `Addable` is the guard a caller can check, and
  `StringList.LoseEmptyString` is a run that fails. `re_parse_nested_class`
  (`include/bellard/libregexp.c:1319-1452`) adds nothing to a list after an intersection or a
  difference, so no pattern reaches this state.
- `parse_attributes` does not move on when an attribute token has no value, so `parse_pug` need not
  return on every stream with an end marker. `PugTokens.HangsIff` is the exact condition. The
  repository's own tokenizer gives every attribute token a value
  (`include/pug/pug_tokenizer.h:256`), so only other callers of `parse_pug` can hang;
  `PugTokens.ReturnsWithValues` covers the front end.
- After the default branch of `parse_node` the outer loop drops one token more, unless it is the end
  marker; `PugTokens.Parse` does the same. The root's depth is never compared: the walk up stops at
  the root by its null parent.

## Model

| member | source | states |
|---|---|---|
| `Text.PrevUndoesGet` | include/bellard/libregexp.c:2558-2639 | stepping forward over a character and back returns to the same position with the same character, and stays off the middle of a surrogate pair, for any 16-bit input, lone surrogates included |
| `Text.GetUndoesPrev` | include/bellard/libregexp.c:2558-2639 | stepping back over a character and forward again returns to the same position with the same character, and stays off the middle of a surrogate pair |
| `Text.StartAt` | include/bellard/libregexp.c:3192-3198 | the start position is moved back out of a surrogate pair and is otherwise kept |
| `Utf16.ReadsWritten` | include/bellard/cutils.h:340-363 | code points written out in UTF-16, those from 0x10000 on as quotient and remainder by 0x400, are read back as the same list exactly when no lone first half stands directly in front of a lone second half; lone halves anywhere else included |
| `Utf16.AlignedBetween` | include/bellard/libregexp.c:3192-3198 | in such a text the positions off the middle of a pair are exactly those between the characters written |
| `Utf16.ReadsUnits` | include/bellard/libregexp.c:2558-2581 | without UTF-16 every unit is a character |
| `Utf16.WrittenValid` | include/bellard/cutils.h:340-363 | every such text is a subject that the engine accepts |
| `Edges.WordsAreTheClass` | include/bellard/libregexp.c:2550-2556 | the characters that make words for a boundary are the members of char_range_w, the set behind the class escape |
| `Edges.WordBoundaries` | include/bellard/libregexp.c:2945-2976 | by index into the units, both ends of the subject included: a word boundary is where exactly one of the two neighbouring units is a letter, digit or underscore |
| `Edges.WordBoundariesFolded` | include/bellard/libregexp.c:2945-2976 | the same of the folded units when case is ignored |
| `Edges.OneWord` | include/bellard/libregexp.c:2945-2976 | on a subject of word characters only, a boundary is found at 0 and at the end and nowhere between, and its negation everywhere between |
| `Edges.LineStarts` | include/bellard/libregexp.c:2869-2878 | by index: the start of a line is at 0 and, in multi-line mode only, behind a line feed, a carriage return or one of the two Unicode separators |
| `Edges.LineEnds` | include/bellard/libregexp.c:2879-2888 | by index: the end of a line is at the end of the subject and, in multi-line mode only, in front of such a unit |
| `Edges.Dots` | include/bellard/libregexp.c:2889-2900 | the dot reads one unit, or two that are a pair, and unless it stands for everything none that breaks a line |
| `Opcodes.DecodeEncode` | include/bellard/libregexp-opcode.h:27-65 | decoding the bytes of any instruction whose operands fit gives the instruction back, with the byte size of the opcode table, whatever follows |
| `Emission.EncodeAllAppend` | include/bellard/libregexp.c:583-606 | code is laid out fragment after fragment: bytes and sizes of a concatenation are those of its parts |
| `Emission.QuantShape` | include/bellard/libregexp.c:2182-2304 | the code of a quantifier is the atom's own (exactly one iteration), the reset alone (none), or holds an instruction after which the scan cannot tell that the code moves |
| `Emission.CharSize` | include/bellard/libregexp.c:1206-1214 | the short form is taken for every character that fits it |
| `Modifiers.CaseCounts` | include/bellard/libregexp.c:1782-1790 | in a group that takes the flag i away, with no group inside giving it back, case folding plays no part, whatever stands outside: code and outcomes are the same for any two foldings |
| `Modifiers.DotUnder` | include/bellard/libregexp.c:1883-1905 | a dot in a group that takes s away reads no line break, in one that gives s it reads every character, and otherwise the flag outside decides |
| `Modifiers.LineUnder` | include/bellard/libregexp.c:1883-1905 | inside a subject the line assertions hold next to a line break in a group that gives m, not in one that takes it away, and otherwise as outside |
| `Modifiers.CharUnder` | include/bellard/libregexp.c:1883-1905 | a character in a group that takes i away is compared as it is, in one that gives i folded, and otherwise as outside |
| `Soundness.SemSound` | include/bellard/libregexp.c:1792-2117 | every outcome of the reference semantics lies in the direction of matching, inside the subject and off the middle of a surrogate pair, captures included |
| `Literals.LiteralFound` | include/bellard/libregexp.c:2813-2829 | on any text written in UTF-16 a literal has, at the start of a character, one outcome, behind its last character, if and only if its characters stand there one after the other, compared after folding when case is ignored |
| `Literals.LiteralValid` | include/bellard/libregexp.c:2096-2113 | every literal is a pattern that the results are about |
| `Conformance.TermTrails` | include/bellard/libregexp.c:2182-2308 | against the standard's semantics, which clears the groups of an atom in front of every iteration: for any pattern none of whose back references reads a slot in doubt, the outcomes of the code's semantics and of the standard's are as many, in the same order, at the same positions, and captures agree except in the slots the static walk lists, where the code may hold something left over and the standard has nothing |
| `Conformance.MatchTrails` | include/bellard/libregexp.c:2182-2308 | unless a back reference reads a slot in doubt, a whole pattern matches where the standard says, from and to the same positions, on every subject and from every start; each group is as in the standard or left over where that has none |
| `Conformance.MatchConforms` | include/bellard/libregexp.c:2182-2308 | a pattern for which the static walk lists no slot, and in which no back reference reads one in doubt, finds exactly the match of the standard, captures included, on every subject and from every start |
| `Iterations.IterationConforms` | include/bellard/libregexp.c:2221-2230 | an iteration of the code, from whatever earlier ones left captured, has the outcomes of the standard's, after its reset, if and only if it sets or resets every slot in which something was captured (atoms as for the next row) |
| `Iterations.QuantConformsIff` | include/bellard/libregexp.c:2182-2308 | a quantifier with any minimum and maximum, greedy or lazy, has the outcomes of section 22.2.2.3.1 of ECMA-262 if and only if every iteration of its run after which it can be left sets or resets what it finds captured; for every atom inside which nothing is left over and in which no back reference reads a group of the atom before it is set |
| `CaptureExample.CaptureOutlivesIteration` | include/bellard/libregexp.c:2221-2230 | groups inside a quantified atom are reset once, on entry: on the subject ab the starred choice between a captured a and a plain b ends with group 1 set by the first iteration |
| `CaptureExample.StandardClearsCapture` | include/bellard/libregexp.c:2221-2230 | by the standard's semantics the same pattern ends there with group 1 undefined |
| `CaptureExample.PatternValid` | include/bellard/libregexp.c:2221-2230 | the pattern of the example is one of those that the results are about |
| `Leftovers.NothingListed` | include/bellard/libregexp.c:2221-2230 | a pattern in which no group stands inside an atom that can be gone through twice lists no slot and reads none in doubt |
| `Leftovers.RepeatedGroup` | include/bellard/libregexp.c:2221-2230 | a repeated group of characters, classes and assertions captures in every iteration: it lists no slot, and what was in doubt of it before is not afterwards |
| `Independence.TermAlike` | include/bellard/libregexp.c:2221-2230 | runs of a term from states that differ in captures no back reference reads go the same way; what differs afterwards has been neither set nor reset |
| `Traces.YieldsAppend` | include/bellard/libregexp.c:2755-2812 | when the outcomes of a first choice are used up the machine takes the pending one: its outcomes follow in order |
| `Traces.YieldsBind` | include/bellard/libregexp.c:2755-2812 | running a continuation from each outcome in turn yields the concatenation of what it yields from each |
| `Loops.ChoiceYields` | include/bellard/libregexp.c:2832-2850 | a split yields the outcomes of the preferred branch, then those of the other, from the same position, captures and operand stack |
| `Loops.CheckedYields` | include/bellard/libregexp.c:2938-2944 | push_char_pos, atom, check_advance keeps exactly the outcomes that moved, in order |
| `Loops.StarYields` | include/bellard/libregexp.c:2233-2247 | the loop split/atom/goto yields the outcomes of unbounded repetition, greedy or lazy, with or without the advance check, and ends |
| `Loops.CountedYields` | include/bellard/libregexp.c:2248-2262 | the loop with a counter on the operand stack yields the outcomes of at most that many iterations and leaves the stack as found |
| `Loops.OptionalYields` | include/bellard/libregexp.c:2233-2247 | split/atom yields the outcomes of at most one iteration |
| `Loops.MinYields` | include/bellard/libregexp.c:2269-2280 | the counted prefix yields exactly the outcomes of the mandatory iterations |
| `Loops.PlusYields` | include/bellard/libregexp.c:2264-2267 | one or more iterations by a backward split yield the outcomes of the general repetition, when the atom always moves |
| `Atoms.ClassAgrees` | include/bellard/libregexp.c:1165-1199 | for every code point up to 0x10FFFF the bounds emitted for a canonical range array, 16-bit form with 0xffff for infinity or 32-bit form, accept exactly its members |
| `Atoms.CharTestAgrees` | include/bellard/libregexp.c:2813-2829 | the instruction emitted for a character test accepts exactly the characters that the term accepts |
| `Atoms.RefForwardIs` | include/bellard/libregexp.c:2988-3008 | comparing a captured span forward with the subject is matching its text |
| `Atoms.RefBackwardIs` | include/bellard/libregexp.c:3009-3020 | comparing a captured span backward from its end is matching its text in lookbehind |
| `SimpleQuant.RunListUndone` | include/bellard/libregexp.c:1562-1607 | a simple atom of n characters run forward is undone by n steps back, from every position it can be run at |
| `SimpleQuant.GreedyRefines` | include/bellard/libregexp.c:3107-3149 | running a simple atom as often as it goes finds the count and the position that unbounded or bounded greedy repetition reaches first |
| `SimpleQuant.UnwindYields` | include/bellard/libregexp.c:2775-2797 | backing off one iteration per failure down to the minimum yields the remaining outcomes of the generic repetition in the same order |
| `SimpleQuant.SimpleQuantYields` | include/bellard/libregexp.c:2182-2205 | simple_greedy_quant refines the general loop: same outcomes, same order, for every minimum and maximum |
| `Determinism.SimpleDeterministic` | include/bellard/libregexp.c:1562-1607 | an atom accepted as simple has at most one outcome from any position, the one its code runs to, and sets no captures |
| `Advance.MovesTerm` | include/bellard/libregexp.c:1498-1558 | when the scan says no check is needed every outcome of the term moved |
| `Advance.AlwaysMovesTerm` | include/bellard/libregexp.c:1498-1558 | an atom for which the scan says no check is needed moves in every outcome from every position: loops without the check consume input |
| `Fragments.BodyRuns` | include/bellard/libregexp.c:2738-2760 | the nested run of a simple atom ends at its match with the position the atom reaches, or fails |
| `Correctness.TermYields` | include/bellard/libregexp.c:1792-2312 | compiler correctness: at any address, position, captures, operand stack and backtrack stack the code emitted for a term produces the outcomes of the reference semantics in priority order, and leaves the operand stack as found |
| `Arrivals.TermExact` | include/bellard/libregexp.c:1792-2312 | exactness: in any program that holds it, from any sound state and on any stacks, the code of a term gets to its end for a list of outcomes, first arrival after first arrival and no other in between, if and only if the list is that of the reference semantics |
| `Arrivals.ArrivesUnique` | include/bellard/libregexp.c:2738-3156 | two lists of arrivals at the same place from the same state are equal |
| `Correctness.QuantYields` | include/bellard/libregexp.c:2119-2312 | the code of a quantified atom yields the outcomes of bounded or unbounded repetition, in order: all minimum and maximum cases, greedy and lazy, with the reset rule |
| `Correctness.SeqYields` | include/bellard/libregexp.c:2321-2353 | the code of a sequence yields the outcomes of its terms one after the other, taken in reverse inside lookbehind |
| `Correctness.AltsYields` | include/bellard/libregexp.c:2355-2387 | the code of alternatives yields the outcomes of each alternative in turn, left to right |
| `Correctness.CaptureYields` | include/bellard/libregexp.c:1945-1970 | the code of a capture group yields the outcomes of its body with the span recorded, start and end swapped inside lookbehind |
| `Correctness.LookYields` | include/bellard/libregexp.c:1910-1928 | the code of a lookaround yields one outcome with the captures of the first inner one, or, negated, one with the captures as they were if there is no inner one; choice points of the body are gone |
| `Correctness.SucceedPops` | include/bellard/libregexp.c:2762-2812 | match discards exactly the choice points above the innermost lookaround entry |
| `Correctness.BackNotSimple` | include/bellard/libregexp.c:2182-2205 | code for lookbehind is never taken for a simple atom |
| `Program.ProgramCorrect` | include/bellard/libregexp.c:2488-2505 | a whole program halts, and its captures are those of the best outcome at the first position that has one, or none if no position has; a sticky program looks at its start only |
| `Typing.Bracket` | include/bellard/libregexp.c:2248-2304 | a well-typed fragment stays well-typed between any two pieces of code that balance around it: what inserting headers in front of emitted code relies on |
| `Discipline.TypedTerm` | include/bellard/libregexp.c:1792-2312 | jump integrity: in the code of any term every jump lands on an instruction boundary of the fragment or on its end, with the operand-stack depth and lookaround nesting found there; the fragment leaves both as found |
| `Discipline.TypedProgram` | include/bellard/libregexp.c:2488-2505 | jump integrity, exact stack depth and lookaround nesting for the code of a whole program, search prefix included |
| `Reachable.StepOk` | include/bellard/libregexp.c:2738-3156 | each step of the machine keeps: pc on an instruction boundary, operand-stack length equal to the linear scan's depth there, pending lookaround entries equal to the static nesting of pc, and the same for every saved entry over the entries below it |
| `Reachable.AlwaysOk` | include/bellard/libregexp.c:2738-3156 | in every state of every run of a compiled program, after backtracking and lookaround exit too, pc is on an instruction boundary with the scanned operand-stack depth and the static lookaround nesting |
| `Reachable.WithinStack` | include/bellard/libregexp.c:2390-2434 | in every reachable state the operand stack is within the recorded maximum, and is not empty where the instruction at hand takes something from it |
| `Reachable.MatchPends` | include/bellard/libregexp.c:2742-2812 | in every reachable state, the match instruction at the end of the program comes with no lookaround pending, and any other with at least one |
| `Positions.StepSound` | include/bellard/libregexp.c:2738-3156 | each step keeps every position held, captured and saved ones included, inside the subject and off the middle of a surrogate pair |
| `Positions.StepsSound` | include/bellard/libregexp.c:2738-3156 | in every state of every run all positions held are inside the subject and off the middle of a surrogate pair |
| `Fitting.TermFits` | include/bellard/libregexp.c:583-617 | every operand of emitted code fits its field, as long as the code stays below the allocation limit |
| `Fitting.ProgramFits` | include/bellard/libregexp.c:2451-2543 | every operand of a whole program fits its field, within the limits under which compilation succeeds |
| `Scans.ReIsSimpleQuantifier` | include/bellard/libregexp.c:1562-1607 | the byte scan returns the number of characters a simple atom reads, or a non-positive number exactly when the code holds anything else |
| `Scans.ReNeedCheckAdvance` | include/bellard/libregexp.c:1498-1558 | the byte scan asks for the check unless all instructions are predictable and one of them reads |
| `Scans.ComputeStackSize` | include/bellard/libregexp.c:2390-2434 | the byte scan returns the greatest depth over all instruction boundaries, or -1 when it exceeds the limit |
| `Compiler.REParseState.EmitRange` | include/bellard/libregexp.c:1165-1199 | appends the range instruction for the class, or nothing for too many ranges, and says which |
| `Compiler.REParseState.Quantify` | include/bellard/libregexp.c:2182-2308 | working in place on the code of an atom already emitted, leaves exactly the bytes of the quantified atom after what was there before |
| `Compiler.REParseState.ParseTerm` | include/bellard/libregexp.c:1792-2312 | appends exactly the code prescribed for the term, at any point of any buffer, numbers its groups in order and restores the flags; fails exactly on too many groups or ranges |
| `Compiler.REParseState.ParseAlternative` | include/bellard/libregexp.c:2321-2353 | appends exactly the code prescribed for a sequence, with the block moves that reverse terms for lookbehind |
| `Compiler.REParseState.ParseDisjunction` | include/bellard/libregexp.c:2355-2387 | appends exactly the code prescribed for alternatives, with the splits inserted in front of the left side and the gotos patched |
| `Compiler.REParseState.Compile` | include/bellard/libregexp.c:2451-2543 | succeeds exactly within the limits on groups, ranges, code size and stack, and then returns the header, with the flags, the capture count, the stack size and the length of the code in their bytes, and the code of the program for the flags given |
| `FlagBits.FlagsByPlace` | include/bellard/libregexp.h:30-35 | of the number that carries the flags, bits 1, 2 and 3 are ignore-case, multi-line and dot-all and bit 5 is sticky; the other bits play no part |
| `Executor.RangeSearch` | include/bellard/libregexp.c:3022-3100 | the binary search finds the character exactly when it is within the bounds; its unsigned index never wraps below zero, for both operand widths |
| `Executor.CompareForward` | include/bellard/libregexp.c:2988-3008 | the comparison loop computes the forward comparison of the span |
| `Executor.CompareBackward` | include/bellard/libregexp.c:3009-3020 | the comparison loop computes the backward comparison of the span |
| `BacktrackStack.StateStack.Push` | include/bellard/libregexp.c:2676-2712 | a record is filled in behind the last, captures and operands copied word by word, in a block enlarged when full; read back, the block stands for the entries it held and the new one on top |
| `BacktrackStack.StateStack.Enlarge` | include/bellard/libregexp.c:2686-2697 | the block grows by half, to 8 records at least, and keeps its records |
| `BacktrackStack.StateStack.RestoreCapture` | include/bellard/libregexp.c:2764-2765 | copies the captures of the last record back |
| `BacktrackStack.StateStack.RestoreStack` | include/bellard/libregexp.c:2769-2771 | copies the operands of the last record back and tells how many there are |
| `BacktrackStack.StateStack.Retry` | include/bellard/libregexp.c:2791-2795 | the last record, a greedy one, moves to the new position with one iteration fewer to give up, and goes when none is left; the records below stay |
| `Executor.REExecContext.ExecOne` | include/bellard/libregexp.c:2813-3149 | each opcode takes the running state to the one the machine prescribes |
| `Executor.REExecContext.Unwind` | include/bellard/libregexp.c:2755-2812 | the unwinding loop resumes the pending choice that the machine prescribes after a match or a failure, or ends with its result |
| `Executor.REExecContext.ExecBacktrack` | include/bellard/libregexp.c:2725-3156 | the interpreter loop ends, with the machine's result and captures |
| `Regexp.ProgramHalts` | include/bellard/libregexp.c:2725-3156 | every run of a compiled program on a finite subject ends |
| `Regexp.LreExec` | include/bellard/libregexp.c:3159-3204 | end to end: on the output of the compiler, for every subject and start index, the result and the captures are those of the reference semantics |
| `Points.InsideIsMember` | include/bellard/libunicode.h:36-42 | for non-strictly sorted endpoint arrays, membership in an interval is an odd number of endpoints at or below the character |
| `Points.CanonicalUnique` | include/bellard/libunicode.h:36-42 | canonical arrays that denote the same set are equal |
| `Points.ComplementInvolution` | include/bellard/libunicode.c:529-541 | complementing a canonical array within [0, UINT32_MAX) twice gives the array back |
| `CharRanges.MergeStep` | include/bellard/libunicode.c:471-513 | each round of the merge keeps: the result denotes the operation on the parts of the inputs consumed so far |
| `CharRanges.CharRange.AddPoint` | include/bellard/libunicode.h:56-64 | appends one endpoint, growing the buffer when it is full |
| `CharRanges.CharRange.AddInterval` | include/bellard/libunicode.h:66-76 | appends two endpoints |
| `CharRanges.CharRange.Realloc` | include/bellard/libunicode.c:406-421 | makes room and keeps the contents |
| `CharRanges.CharRange.Copy` | include/bellard/libunicode.c:423-430 | takes over the contents of another range |
| `CharRanges.CharRange.Compress` | include/bellard/libunicode.c:433-459 | in place, turns a non-strictly sorted array into the canonical one of the same set |
| `CharRanges.CharRange.Op` | include/bellard/libunicode.c:462-515 | union, intersection, symmetric difference and difference of any two non-strictly sorted arrays, in canonical form |
| `CharRanges.CharRange.Op1` | include/bellard/libunicode.c:517-527 | the set operation with the object as first operand and result, in canonical form |
| `SetLaws.OperationsMean` | include/bellard/libunicode.c:491-507 | the four operations by what they mean for one character |
| `SetLaws.XorUndoesXor` | include/bellard/libunicode.c:499-501 | a second symmetric difference with the same set gives the canonical array back |
| `SetLaws.XorIsTwoSubs` | include/bellard/libunicode.c:499-504 | the symmetric difference is the union of the two differences |
| `SetLaws.InterAndSubMakeUp` | include/bellard/libunicode.c:496-504 | a set is the union of what it shares with another and what it does not |
| `CharRanges.CharRange.UnionInterval` | include/bellard/libunicode.h:82-88 | adds exactly the characters from one to the other inclusive |
| `CharRanges.CharRange.Invert` | include/bellard/libunicode.c:529-541 | the complement within [0, UINT32_MAX), in canonical form |
| `CharRanges.CharRange.SortAndRemoveOverlap` | include/bellard/libunicode.c:622-656 | intervals in any order, overlapping or not, become the canonical array of the same set |
| `RqSort.RqSort` | include/bellard/cutils.c:522-639 | for every length and every comparison that is a total preorder the array ends up sorted and a permutation of the input; every index into the 50-entry stack is in range |
| `RqSort.HeapSort` | include/bellard/cutils.c:480-512 | the segment ends up sorted and a permutation of itself, the rest untouched |
| `RqSort.RootIsMax` | include/bellard/cutils.c:480-512 | no element of a heap exceeds its root |
| `RqSort.SiftDown` | include/bellard/cutils.c:493-500 | restores the heap below one node |
| `RqSort.Med3` | include/bellard/cutils.c:514-519 | the place returned is one of the three and its element lies between the other two |
| `RqSort.Scan` | include/bellard/cutils.c:556-587 | the partition loop ends with elements equal to the pivot at both ends, smaller and greater ones between, permuted within the segment |
| `RqSort.Rotate` | include/bellard/cutils.c:594-612 | exchanging the shorter of two neighbouring blocks with the far end of the other swaps the blocks, up to order within each |
| `RqSort.Centre` | include/bellard/cutils.c:594-612 | after the two block exchanges smaller elements come first, then the copies of the pivot, then greater ones |
| `RqSort.SettledRefine` | include/bellard/cutils.c:536-637 | work inside one pending segment keeps the invariant of the whole sort: every two elements are in order unless one pending segment holds both |
| `RqSort.SettledSplit` | include/bellard/cutils.c:616-631 | a divided segment may be replaced by its two outer parts |
| `RqSort.Pushed` | include/bellard/cutils.c:524-553 | stacked depths strictly increase from 1, so a push at depth at most 50 finds a free entry |
| `RqSort.InsertionSort` | include/bellard/cutils.c:634-637 | the segment ends up sorted and a permutation of itself |
| `CaseConv.FindRun` | include/bellard/libunicode.c:168-184 | the binary search finds the run of the character, or that it has none |
| `CaseConv.LreCaseConv` | include/bellard/libunicode.c:156-188 | computes the conversion: identity outside the runs, at most three characters inside |
| `CaseConv.CasesPair` | include/bellard/libunicode.c:77-90 | on runs of alternating letters and of lower, title and upper forms, lower case and upper case undo each other and differ |
| `CaseLaws.AsciiIsTable` | include/bellard/libunicode.c:159-168 | below 128 the way around the table gives what the table would give, for all three conversions |
| `CaseLaws.AsciiClasses` | include/bellard/libunicode.c:227-241 | in both modes two ASCII characters canonicalize alike exactly when they are the same, or a capital and the small letter 32 above it |
| `CaseLaws.AsciiApart` | include/bellard/libunicode.c:216-221 | without the unicode flag a character from 128 on never canonicalizes to ASCII |
| `CaseLaws.CanonicalizeIsUpper` | include/bellard/libunicode.c:192-225 | without the unicode flag canonicalizing is section 22.2.2.7.3 of ECMA-262: the upper case, unless that is more than one character or leads from outside ASCII into it |
| `CaseLaws.PairedForms` | include/bellard/libunicode.c:67-76 | letters of two runs that point at each other correspond one to one: each conversion of either one is the capital or the small letter, as the types of the two runs say |
| `CaseLaws.MaskExact` | include/bellard/libunicode.c:547-551 | a character of a run that is not converted to itself is in the set of a mask if and only if one of the conversions of the mask changes it |
| `CaseLaws.RegexpMaskExact` | include/bellard/libunicode.c:660-742 | for the same runs, the set that cr_regexp_canonicalize goes through holds exactly the characters that its conversion changes |
| `CaseLaws.PackedEntry` | include/bellard/libunicode.c:62-65 | code, length, type and data packed into a word and a byte are read back as they were |
| `CaseLaws.MacronForms` | include/bellard/libunicode-table.h:9 | the forms of A with macron and its neighbours, capital and small in turn, from the shipped entry |
| `CaseLaws.CaronForms` | include/bellard/libunicode-table.h:20 | the capital, title and small form of DZ with caron |
| `CaseLaws.IotaForms` | include/bellard/libunicode-table.h:64 | the forms of capital alpha with breathing and iota below |
| `CaseLaws.MicroForms` | include/bellard/libunicode-table.h:7 | the forms of the micro sign |
| `CaseLaws.LongSForms` | include/bellard/libunicode-table.h:55 | the forms of long s with a dot |
| `CaseLaws.DotlessForms` | include/bellard/libunicode-table.h:9 | dotless i becomes I, and is identified with nothing else by the regular expressions |
| `CaseLaws.KelvinForms` | include/bellard/libunicode-table.h:76 | the Kelvin sign becomes k, and is identified with K under the unicode flag only |
| `CaseLaws.DottedForms` | include/bellard/libunicode-table.h:9 | I with a dot becomes i and the dot |
| `CaseLaws.LongLigatureForms` | include/bellard/libunicode.c:202-211 | the forms of the ligature of long s and t |
| `CaseLaws.LigatureForms` | include/bellard/libunicode.c:202-211 | the forms of the ligature of s and t, which is identified with the one before under the unicode flag only |
| `CaseLaws.FfiForms` | include/bellard/libunicode-table.h:93 | the forms of the ligature ffi |
| `CaseLaws.IotaTonosForms` | include/bellard/libunicode.c:202-211 | the two encodings of iota with dialytika and tonos become the same three letters and are identified under the unicode flag |
| `CaseLaws.UpsilonTonosForms` | include/bellard/libunicode.c:202-211 | the same of upsilon |
| `CaseExcerpt.ExcerptWellFormed` | include/bellard/libunicode-table.h:6-164 | the shipped entries of ASCII and of these letters, with the shipped extra characters, are a well-formed table |
| `CaseExcerpt.ExcerptForms` | include/bellard/libunicode-table.h:6-164 | and by it a number of letters have the forms said |
| `CaseConv.LreCanonicalize` | include/bellard/libunicode.c:227-261 | computes the canonical character |
| `CaseConv.ModifiedSelected` | include/bellard/libunicode.c:59-149 | a character that its run converts to anything else under one of the conversions of the mask is one that the mask takes, run type by run type |
| `CaseConv.ModifiedInMask` | include/bellard/libunicode.c:547-551 | every character that a conversion of the mask modifies is in the mask's set |
| `CaseConv.FixedOutsideMask` | include/bellard/libunicode.c:660-742 | characters outside the mask are fixed points of lre_canonicalize |
| `CaseConv.EntryCanonicalizes` | include/bellard/libunicode.c:192-261 | on the characters of the mask the entry routine called for each of them agrees with lre_canonicalize, ASCII shortcut included |
| `Canonicalization.UnicodeCase1` | include/bellard/libunicode.c:552-613 | for every mask, a sorted array of exactly the characters the mask takes |
| `Canonicalization.SeekRun` | include/bellard/libunicode.c:694-702 | the cursor finds the run of each character of the mask and never passes the end of the table |
| `Canonicalization.Collect` | include/bellard/libunicode.c:703-714 | adding a result to the interval being built, or starting a new one, loses nothing and adds nothing else |
| `Canonicalization.FoldAll` | include/bellard/libunicode.c:683-719 | the collected intervals denote the image of the characters of the mask |
| `Canonicalization.CrRegexpCanonicalize` | include/bellard/libunicode.c:660-742 | the set becomes exactly its image under lre_canonicalize, as a canonical array |
| `Canonicalization.CanonicalizeInRange` | include/bellard/libunicode.c:227-261 | the canonical character is a code point when the character is |
| `Canonicalization.CanonicalizeFolds` | include/bellard/libunicode.c:227-261 | canonicalizing is a folding that the matcher accepts |
| `Canonicalization.ClassIgnoresCase` | include/bellard/libregexp.c:3028-3036 | a class compiled from a canonicalized set accepts a character, case ignored, exactly when some member of the set canonicalizes to the same |
| `PropTable.GetIndexPos` | include/bellard/libunicode.c:271-302 | finds a place of the plain decode at or before the run of the character, or that the character is beyond the bound |
| `PropTable.LreIsInTable` | include/bellard/libunicode.c:304-345 | below the bound of the index the answer is that of the decode from the start; from the bound on it is false |
| `PropTable.PassesKeeps` | include/bellard/libunicode.c:304-345 | characters at or above a place of the decode are decided the same from there as from the start |
| `PropTable.UnicodeProp1` | include/bellard/libunicode.c:1458-1503 | builds a sorted array of exactly the characters in runs of status true |
| `PropTable.LookupAgrees` | include/bellard/libunicode.c:271-345 | lookup by index and set built by plain decode agree below the bound, and everywhere when the bound is the end of the table |
| `TableFormat.PackedReads` | include/bellard/libunicode.c:1467-1474 | any list of run lengths, packed as the format says with two short runs to a byte, decodes to the same code points from any place and with either status, to its end |
| `TableFormat.IndexReads` | include/bellard/libunicode.c:268-301 | any place within reach of its block, written as an index entry, is read back as that place |
| `TableFormat.WrittenIndexed` | include/bellard/libunicode.c:268-345 | every table so written, with an index that holds just its end, is one that the lookup accepts, and its bound is the sum of the runs |
| `SortCc.SortCc` | include/bellard/libunicode.c:1091-1125 | the buffer ends up without neighbours in the wrong order, a permutation, every starter in its place, characters of one class between the same starters in the same order |
| `SortCc.ExchangeEquivalent` | include/bellard/libunicode.c:1108-1115 | each shift is an exchange of neighbours of different positive classes, which keeps starters in place and equal classes in order |
| `SortCc.OrderedUnique` | include/bellard/libunicode.c:1091-1125 | at most one ordered sequence keeps the strands of a buffer: the result is determined by section 3.11 of the Unicode Standard |
| `SortCc.OrderedFixed` | include/bellard/libunicode.c:1091-1125 | a second pass changes nothing |
| `StringList.ReStringHash` | include/bellard/libregexp.c:145-153 | computes the hash, wrapping at 32 bits |
| `StringList.BucketInTable` | include/bellard/libregexp.c:228 | the top bits of a hash index the table |
| `StringList.BucketIsTop` | include/bellard/libregexp.c:228 | the bucket is the hash with all but its top bits dropped |
| `StringList.REStringList.Lookup` | include/bellard/libregexp.c:226-234 | finds a string exactly when the set has it, looking at its own bucket only |
| `StringList.REStringList.Grow` | include/bellard/libregexp.c:240-264 | relinking every node into a larger table keeps the set, the node count and the placement of every string |
| `StringList.MoveChain` | include/bellard/libregexp.c:250-257 | moves one chain, node by node, keeping new and remaining chains intact |
| `StringList.REStringList.Find2` | include/bellard/libregexp.c:222-276 | tells whether the set had the string and adds it once if asked; the list stays in order if and only if nothing is added, or the set was not empty, or there was no table, or the string belongs in bucket 0; otherwise the string added is not found |
| `StringList.LoseEmptyString` | include/bellard/libregexp.c:222-276 | from a new list: one string added, all taken away by an intersection with nothing, then the empty string added: the list is out of order and a search does not find the string |
| `StringList.REStringList.Add` | include/bellard/libregexp.c:287-295 | adds a string to the set the list denotes, single characters to the ranges and other strings to the table, which stays in order under the condition of Find2 and otherwise does not find it |
| `StringList.Unlink` | include/bellard/libregexp.c:328-332 | takes one node out of a chain and leaves the rest linked in order |
| `StringList.FilterChain` | include/bellard/libregexp.c:319-337 | leaves in one chain exactly the nodes to keep, in order, and counts the others |
| `StringList.REStringList.Retain` | include/bellard/libregexp.c:317-339 | intersection or difference of the string sets, unlinking in place |
| `StringList.REStringList.Unite` | include/bellard/libregexp.c:307-316 | union of the string sets |
| `StringList.REStringList.Op` | include/bellard/libregexp.c:298-344 | ranges and strings are combined by the same set operation |
| `ClassStrings.StringsYields` | include/bellard/libregexp.c:1216-1291 | the code of a class with strings yields, in order, each string the subject has there, then a character of the set, then the empty string if it belongs to the class |
| `ClassStrings.StringsTyped` | include/bellard/libregexp.c:1216-1291 | its jumps land inside it on instruction boundaries, and it leaves the operand stack as found |
| `ClassRuns.ListExact` | include/bellard/libregexp.c:1216-1291 | the bytes appended for a list run, in any program that holds them, with the outcomes of the class and nothing else, for any list of code-point strings and any canonical set of characters within the limits |
| `StringEmission.Collect` | include/bellard/libregexp.c:1236-1247 | every string of the table but the empty one is collected once; the empty one is noticed |
| `StringEmission.PatchJumps` | include/bellard/libregexp.c:1281-1286 | following the chain of provisional operands from the last to the first and patching each gives exactly the code of the class |
| `StringEmission.EmitStringList` | include/bellard/libregexp.c:1216-1291 | appends the code of the class, its strings being those of the list, each once, the longest first; fails only on too many ranges or too much code |
| `ClassOrder.LongestOutcomesFirst` | include/bellard/libregexp.c:1248-1291 | with the strings longest first, the outcomes of a class never get longer from one to the next: the longest string that the subject has is tried first |
| `PugTokens.ReturnsIff` | include/pug/pug_parser.h:228-286 | the parser's control comes to an end if and only if the list of node tokens is defined |
| `PugTokens.HangsIff` | include/pug/pug_parser.h:55-57 | on a stream with its end marker the parser hangs if and only if some attribute token without a value decorates, through tokens of the same depth, a tag at which control arrives |
| `PugTokens.ReturnsWithValues` | include/pug/pug_parser.h:228-286 | the parser returns on every stream with one end marker whose attribute tokens have values |
| `PugTokens.HangExample` | include/pug/pug_parser.h:55-57 | on the stream of a tag, an attribute token without a value and the end marker, control never gets out |
| `PugNodes.NodesAre` | include/pug/pug_parser.h:195-225 | on every stream in which each class, id and attribute token is led by a tag of its depth with only such tokens, texts and interpolations between, the parser returns and its nodes are, in order, the tags, the texts and interpolations that no tag leads, and the tokens of the other node kinds; the default branch is never taken |
| `PugNodes.StrayTakesNext` | include/pug/pug_parser.h:237-243 | a token that starts no node takes the one behind it along unless that is the end marker |
| `Preorder.PreSnoc` | include/pug/pug_parser.h:252-271 | adding a node below the last node or a node above it extends the preorder of exactly the subtrees around it, at the end |
| `Preorder.PreorderIsOrder` | include/pug/pug_parser.h:228-286 | the preorder of a tree grown in this way is the order in which nodes were added |
| `PugTree.Attach` | include/pug/pug_parser.h:263-265 | parent pointers and child lists stay those of one tree when a node is added |
| `PugTree.ParserContext.ParseNode` | include/pug/pug_parser.h:125-225 | makes a node of the token at the cursor and consumes the tokens that decorate it, or, in the default branch, consumes one token and makes none |
| `PugTree.ParserContext.Backtrack` | include/pug/pug_parser.h:252-261 | the walk up stops at the root or at the nearest node above that is less deep |
| `PugTree.ParserContext.ParsePug` | include/pug/pug_parser.h:228-286 | a tree whose preorder is the order of the node tokens, with their types (piped and dotted blocks are texts), depths and positions, depth strictly increasing along every edge below the root; if no token takes the default branch each parent is the nearest earlier node of smaller depth, or the root |
| `PugTree.AncestorsShallower` | include/pug/pug_parser.h:252-262 | below the root, a node above another is less deep |
| `PugTree.ChildOfParent` | include/pug/pug_parser.h:262-264 | in the tree every node but the root is among the children of the node it points to as its parent |

## Left out

- Pattern text: escapes, Annex B leniency, group names, modifier syntax, property names. Patterns are syntax trees; a class is given by its canonicalized ranges.
- Classes with strings inside patterns: their set operations and their code are modelled and proved by themselves, forward only; a term of a syntax tree reads one character, and inside lookbehind the code for longer strings is not modelled.
- Error messages: a compilation that fails returns `None`; which of the limits failed is not told.
- Allocation failure, realloc callbacks, timeouts and stack-overflow hooks; buffer growth in the compiler is that of a sequence, and its limit is one bound on the total code size.
- Compiler.REParseState.Compile: the trailing table of group names is not appended and no flag for it is set, because groups have no names here.
- BacktrackStack.StateStack.Push: the block is a matrix with one word for each header field, capture and operand, not bytes; an allocation that fails is not modelled.
- Executor.REExecContext.ExecBacktrack: the nested call that runs a simple atom is a method of its own.
- Regexp.LreExec: instructions are fetched through one decoding function that the compiler's encoding is proved to invert, not by pointer arithmetic in each case.
- CharRanges.CharRange.Op: the operands are values, so a call that passes the object's own buffer as an operand is not modelled; the repository makes none.
- CharRanges.CharRange.SortAndRemoveOverlap: handing the points to rqsort as pairs is modelled by copying them out and back.
- RqSort.RqSort: elements are exchanged whole; the exchange routines for each element size are not modelled.
- Canonicalization.CrRegexpCanonicalize: of the contents of the Unicode tables nothing is said beyond well-formedness and the forms of some letters of every kind of run (`CaseLaws`, `CaseExcerpt`).
- StringList.REStringList.Unite: asks for a receiver that holds a string or has no table yet, unless there is nothing to add; what a union does to a list that has lost all its strings is stated for the first string only, in Find2. No pattern reaches that state.
- StringList.REStringList.Op: the same for a union.
- Conformance.MatchConforms: one direction only. The walk takes every way through an atom for possible, so a pattern such as `(?:(a)|)*` is listed although its empty way never gets an iteration of its own; the exact condition is the one of Iterations.QuantConformsIff.
- Iterations.QuantConformsIff: for atoms inside which nothing is left over and in which no back reference reads a group of the atom before it is set.
- StringList.REStringList.Grow: assumes fewer than 2^29 strings, so that table sizes stay 32-bit numbers.
- `re_string_list_canonicalize` and the printing and freeing routines of string lists.
- PugTree.ParserContext.ParseNode: texts, attributes, classes and ids of nodes are not modelled, only type, depth, position and place in the tree.
- The Pug tokenizer and renderer, the remaining Unicode routines (normalization by composition, scripts, general categories) and the example programs.
