# envytools: the machine-checked core

envytools has two halves with self-contained cores.  One is a table-driven assembler and
disassembler for GPU instruction sets (`envydis/`, `easm/`): a single table of
`(val, mask, atoms)` rows is read in both directions.  The other is `demmt`, which replays a
binary trace of driver activity.  This project models both cores and proves what they are
built on.  64-bit machine words are sequences of 64 bits (`Words`), so wrap-around, shifts
and masks are those of the machine; `Numbers` says what they are as numbers, and wherever results
are about values they are said on numbers too: what each operator computes (`CalcValues`), what a
field is worth and how far it reaches (`FieldValues`), which numbers the emitted bytes spell
(`LayoutNumbers`), what the macro interpreter sends (`MacroEffects`).

## What is proved

**Assembler and disassembler** (`Tables`, `AsmSound`, `AsmComplete`, `Engine`, over `Fields`,
`Relocs`, `Registers`).  Tables are an inductive datatype of rows whose atoms may be tables
again.  For every valid table and every token list, each candidate the assembler finds stands
for opcodes that read back, along fixed rows, as exactly those tokens (`AssemblerSound`); if
the rows are the ones the disassembler takes, it prints tokens of the same meaning
(`SourceReadsBack`).  Conversely every opcode that disassembles without a `???` has, among the
candidates of its own tokens, one that it agrees with (`RoundTrip`), and the same holds through
the cleaned-up form that is printed (`PrintedRoundTrip`).  Both rest on merges being
exact intersections (`MergeExact`) and on field writes accepting exactly the values some opcode
has (`SetBfExact`, `FillExact`).  `MacroIsa` holds the complete macro instruction set of
`envydis/macro.c` as such a table and derives the round trip for every macro word;
`MacroRows` lists which of its rows stand in the way of others; `MacroAgree`, `MacroOperands` and
`MacroShown` show that what this table prints for a word is the instruction, operands included,
that the tests of `demmt/macro.c` execute for it.  `Engine` has the same functions as loops over
mask arrays and growing lists; `UsedBits` and `Walks` say which bits are looked at and what the mask
of them is good for, `MaskBounds` which bits an encoding can fix.  `FieldValues` says when an
immediate or a branch target is accepted: exactly if it is in the range of the field's sign mode
and aligned (`AcceptedNumbers`, `ReachableTargets`).

**Layout** (`Layout`, `Sections`, `LayoutRun`, `LayoutFacts`).  A first pass lays the lines out,
a second one writes them with relocations filled in and drops an encoding that does not fit;
this repeats until nothing was dropped.  The loop stops after at most one pass more than there
are spare encodings, the passes agree on every position, each label is worth
`base + offset / stride` at its own line, every line's bytes stand at its position inside the
grown buffer, the bytes of a data line spell its values (`DataReadsAsSource`), and the opcode that
the disassembler takes from an instruction's address reads back as the tokens of its source line
(`Opcodes`, `SourceIsReadBack`).

**Code discovery** (`Discovery`) computes the least closed set of branch and call marks within
`size + 1` passes; `DisBlock` decodes an instruction for it from a table, `Walks` says what that
learns of any instruction, and `MacroBlock` what it gives for macro code.  **Rewriting** (`Rewrite`,
`RewriteNodes`, `TidyForms`): position substitution, constant folding and the disassembler's clean-up
keep the value of every expression, division by zero and short circuits included, at every depth of
memory operands and nested instructions, and a branch target filled in at an address reads back as
its source value; nodes are overwritten in place, as in the source.  **Flattening and parsing** of
instruction trees undo each other exactly for canonical trees (`Flatten`, `FlattenRun`).

**Text** (`Printer`, `Lexer`, `Literals`, `Grammar`, `Spacing`, `PrintedText`, `Reading`, `SameText`, `InsnText`).
The precedence printer of `easm/easm_print.c`, the lexer of `easm/easm_lex.l` with its white-space
flag, and the grammar of `easm/easm_parse.y` are put together on characters.  A text is read back as
what was printed exactly when every negation in it stands free (`TextIsRead`, `OperandTextIsRead`,
`InsnTextIsRead`), and two expressions are printed alike exactly when they differ in nothing but what
a `--` is (`SameTextIff`).  `TextRoundTrip` goes the whole way: an opcode is disassembled, cleaned
up, printed, lexed, parsed, flattened and assembled.  For macro code that needs no condition
(`MacroTextRoundTrip`).

**Written ranges** (`Intervals`, `Regions`): the doubly linked list with its shortcuts and
recursive merges is set union in canonical form, so two histories give the same list iff they
wrote the same offsets.  What happens to a range whose 32-bit end wraps around is said exactly.

**Macro interpreter** (`MacroMachine`, `MacroRuns`, `MacroDecode`, `MacroEffects`, `MacroSim`): what
each instruction computes, sends and writes, delay slots, delayed exit, the backward-jump budget, and
suspension for a missing parameter.  Sending parameters one call at a time ends exactly as one run with
all of them; from every state every call returns, within a number of turns linear in the code size,
exactly if the code holds no annulled branch to itself; the object state is the initial one with the
logged sends applied.

**Trace loader** (`Stream`, `TraceFormat`, `TraceRoundTrip`, `StaleSearch`, `Loader`, `StaleSkip`).  The
records are described by their fields; a trace that is written from them is parsed as exactly those
records (`TraceParses`), and whatever is parsed was written so.  A 64K window slides over arbitrary
short reads, with raw pointers that a move invalidates and retry loops that repair them.  Two pointers
are not repaired, and both are modelled (see below).  Apart from them the records delivered are those of
the byte string: `Decode` says exactly when all of them are, and the retry loops go round at most twice.

**Object forest** (`Forest`) under creation and destruction, and the **push-buffer decoder**
(`Pushbuf`), which recovers the method writes of every list of encoded packets, up to the first jump.

## Where the code differs from what one would expect

- A plain immediate field with its top bit set when read (a biased or signed field) is printed
  with a minus sign, and the assembler takes a plain immediate only as a number literal.  The
  printed form is taken back iff the top bit is clear (`PrintedImmediateAccepted`,
  `NegativeImmediateRefused`).  Relocatable fields have no such limit.
- Printed text is not always read back.  A `-` is a negation only behind white space or an opening
  bracket (`easm/easm_lex.l:61`), so `0x2*-0x3`, `~-0x1` and `--0x1` are printed and refused
  (`ProductRefused`); `--` is one token (`:62`), so a subtracted negation inside a memory operand is
  printed as `[$r1--$r2]` and read as a step (`StepReadInstead`); the current position is printed as
  `$`, which is no token.  `TextIsRead` and `InsnTextIsRead` give the exact condition.  Without colours
  `[$r1--$r2]` is the text of two expressions; `SameTextIff` says when two texts are the same.
- A bit of an opcode that is reported as unknown may still decide which instruction it is: the rows
  in front of the one taken are not marked (`envydis/core-dis.c:138-140`).  `UnknownBitMatters` is a
  table for which it does; `UsedBitsDecide` says when it does not.
- `regions_add_range` adds in 32 bits.  A range whose end wraps around is reported as added, although
  nothing is, exactly if it starts in front of the end of the last region and some region contains it
  by the wrapped end, or if it starts there and the wrapped end is inside the last region, which then
  loses its end (`AddWrapped`, `WrittenIsForgotten`).
- `envydis/macro.c:102-104` says that an exit combined with a branch happens if and only if the branch is
  not taken.  `demmt/macro.c:1217` and `:1257` cancel the exit exactly when the branch is not taken
  (`ExitOnBranch`).  The model follows the code.
- A branch to itself without a delay slot does not count as a backward jump, so the interpreter
  stays there for ever (`SpinsForEver`).  `RunsAreBounded` and `ReturnsIff` make the absence of such
  a branch the exact condition, `SelfBranchWord` says which words they are, and `OneWordSpins` is a
  macro of one word whose launch never returns.
- `demmt/mmt_bin_decode_nvidia.c:270-275` handles a memory dump outside any ioctl without the retry
  loop.  If loading its data moves the window after its header was found, the header pointer is stale.
  This happens iff the record straddles the end of the filled part of the window in the way
  `Loader.Straddles` says.  The data delivered are right even then; `StaleAddress` says what the
  address is, byte by byte, and `StaleHeader` and `StaleRun` are a 26-byte stream and a run for
  which it is wrong.
- `demmt/mmt_bin_decode_nvidia.c:143` looks at the subtype of a record that was passed over through a
  pointer taken before the record was loaded.  If loading it has moved the window and an 'o' has come to
  stand there, the search ends and whatever follows is taken for a dump.  Mostly the round is repeated and
  nothing is lost; but where that dump, or what follows it, is malformed, the program exits before, and
  the ioctl is not delivered.  `Misfires` and `Fatal` say when, `SeenUnlessFatal` that it is exactly then,
  `LostIoctl` and `LostRun` are a 32-byte stream and a run for which it happens.  It does not happen where
  nothing is passed over (`QuietIsHarmless`), nor once the rest of the stream is in the window
  (`HeldIsHarmless`).
- The clean-up of an operand folds the parts of a larger one again, so a part that was shown as a
  negation comes out as the large unsigned number it is, unless it is the offset of a sum (`NumInside`,
  `OffsetShown`).
- `regions_add_range` with an empty range returns 1 iff the offset touches a region; otherwise it
  leaves an empty region behind and reports failure (`AddEmpty`).
- On chipset 0xc0 and newer an old-style incrementing packet steps its address once only, since
  its increment count is set to 1 (`demmt/pushbuf.c:347`; `Pushbuf.Increments`).  An old-style jump
  does not clear the size field (`ControlDecodes`, `OldJumpLeavesSize`).

## Model

| member | source | states |
|---|---|---|
| `AsmSound.MergeExact` | envydis/core-as.c:58-86 | two matches conflict iff no opcode satisfies both, and otherwise the merge denotes exactly the intersection |
| `AsmSound.MergeSatisfies` | envydis/core-as.c:58-86 | an opcode satisfies a merge, relocations included, iff it satisfies both parts |
| `AsmSound.AtomSound` | envydis/core-as.c:276-353 | every match of a simple atom consumes its one token, and opcodes satisfying it say that token |
| `AsmSound.SoundTable` | envydis/core-as.c:260-274 | each match of a table comes from one of its rows, and opcodes satisfying it read along the row as the consumed tokens |
| `AsmSound.SoundAtoms` | envydis/core-as.c:235-258 | extending a match by a row's atoms denotes exactly the opcodes that satisfy it and read along a path as the tokens |
| `AsmSound.ResolveExact` | envydis/envyas.c:154-177 | `resolve` succeeds for an opcode iff the opcode satisfies the match with its relocations at the position, all of them together |
| `AsmSound.AssemblerSound` | envydis/core-as.c:739-752 | every result of `do_as` consumed all tokens, and every opcode it resolves to, anywhere, reads along fixed rows as those tokens |
| `AsmSound.DisFollows` | envydis/core-dis.c:135-144 | if those rows are the disassembler's own, it prints token for token the same meaning, and the same length |
| `AsmSound.FirstRowOf` | envydis/core-dis.c:135-144 | the row taken is one of the rows of the table |
| `AsmSound.NoEarlierRow` | envydis/core-dis.c:138-139 | no row in front of the one taken fires |
| `AsmSound.SourceReadsBack` | envydis/core-as.c:739-752 | every opcode that a result of `do_as` resolves to reads along the result's rows as the source, and if those are its own rows the disassembler prints the same meaning token for token and the result's length |
| `AsmComplete.AtomComplete` | envydis/core-as.c:276-353 | every atom but a table and a `???` accepts the token that it printed itself, and keeps the opcode |
| `AsmComplete.CompleteTable` | envydis/core-as.c:260-274 | among the matches of a table for printed tokens is one that the opcode satisfies, of the printed length |
| `AsmComplete.RoundTrip` | envydis/core-dis.c:135-144 | disassemble any opcode without a `???`; assembling the tokens yields a candidate of that length that relocates there and fixes only bits the opcode has |
| `AsmComplete.ShownRoundTrip` | envydis/core-dis.c:135-144 | the round trip for tokens in any form that shows what was read, settled or cleaned up |
| `AsmComplete.PrintedRoundTrip` | envydis/core-dis.c:536-575 | the round trip through the cleaned-up tokens, whatever is marked, if no plain immediate on the walk has its top bit set |
| `TextRoundTrip.TextAssembles` | easm/easm_parse.y:127-148 | the text of disassembled tokens is parsed, flattened and assembled to the candidates of the tokens |
| `TextRoundTrip.OpcodeTextRoundTrip` | envydis/core-dis.c:481-512 | from opcode to text and back: the text assembles, as one candidate, to an encoding of the same length that relocates there and fixes only bits the opcode has |
| `MacroIsa.RootGood` | envydis/macro.c:31-163 | the whole macro instruction table is well formed and its names are unambiguous |
| `MacroIsa.MacroRoundTrip` | envydis/macro.c:110-163 | the round trip for every macro code word, the candidate one word long |
| `MacroIsa.MacroPrintedRoundTrip` | envydis/macro.c:110-163 | for macro words the round trip through the printed form needs no condition |
| `MacroAgree.SameInstruction` | demmt/macro.c:769-1274 | the table row that `atomtab_d` takes for a word is the one for the form that the tests of `macro_sim` find, and the catch-all row iff they find none |
| `MacroAgree.SameUse` | demmt/macro.c:486-712 | the row of `tabdst` taken is the one for the use and register that `macro_sim_dst` finds |
| `MacroAgree.SameFlags` | demmt/macro.c:755-759 | exit bit and annul bit are read alike |
| `MacroOperands.SameRegisters` | envydis/macro.c:50-58 | the three register fields of the table hold the registers that the simulator uses |
| `MacroOperands.SamePositions` | envydis/macro.c:31-33 | so do the fields for bit positions and sizes |
| `MacroOperands.SameImmediate` | envydis/macro.c:34-35 | the signed field is the simulator's immediate modulo 2^64 |
| `MacroShown.DisassemblyShows` | demmt/macro.c:755-1274 | the tokens of a macro word are the instruction that `macro_sim` executes for it: operation, registers, numbers, use of the result, flags |
| `MacroShown.UnknownShown` | demmt/macro.c:1263-1274 | a word that `macro_sim` does not know is shown with a `???` |
| `MacroText.KnownIffSimulated` | envydis/macro.c:110-163 | the disassembler knows a word iff the simulator does |
| `MacroText.MacroTextRoundTrip` | envydis/macro.c:110-163 | every macro word that the simulator knows is printed, wherever it stands, as a line that reads back and assembles to the word |
| `MacroEmitted.MacroLength` | envydis/macro.c:161-163 | every encoding of a macro instruction is one word long |
| `MacroEmitted.MacroCodeReadsAsSource` | envydis/envyas.c:403-431 | for macro code that holds without any condition: the four bytes written read as the source line |
| `MacroRows.BodyOwned` | envydis/macro.c:131-158 | of the lines of the main table that fire for a word, which is the first: the list of special cases |
| `MacroRows.UseOwned` | envydis/macro.c:113-127 | the same for the lines that say what is done with a result |
| `MacroRows.MacroOwnRows` | envydis/macro.c:113-163 | an encoding of macro code is read along its own rows iff its lines are on that list |
| `MacroBlock.MacroInstruction` | envydis/core-dis.c:481-512 | for a macro word discovery gets one word, no end mark, no call, and the address that the simulator branches to |
| `MaskBounds.MaskStaysShort` | envydis/core-as.c:58-290 | an encoding fixes no bit that no row or field of the table names |
| `MaskBounds.ShortCodeReadsAsSource` | envydis/envyas.c:403-431 | where no row or field reaches beyond an encoding, every opcode that starts with its bytes reads as the source line |
| `UsedBits.UsedBitsDecide` | envydis/core-dis.c:39-144 | an opcode that has the marked bits and takes the same rows is read alike, and marks the same bits |
| `UsedBits.UnknownBitMatters` | envydis/core-dis.c:135-144 | a table and an opcode with a bit reported as unknown without which it is another instruction |
| `Fields.FindLut` | envydis/core-as.c:217-224 | the look-up returns the first index holding the number, or the table length if there is none |
| `Fields.SetBfSound` | envydis/core-as.c:214-233 | if `setbf` accepts, every opcode left in the set was in it before and reads back exactly the number asked for |
| `Fields.SetBfComplete` | envydis/core-as.c:214-233 | the number an opcode of the set reads as is accepted and keeps that opcode in the set |
| `Fields.SetBfExact` | envydis/core-as.c:214-233 | `setbf` accepts iff some opcode of the set reads as the number, and then leaves exactly those opcodes |
| `Fields.SetSbfKeeps` | envydis/core-as.c:166-190 | writing an opcode's own bits into a piece never conflicts and keeps the opcode, across the word boundary too |
| `Fields.SetSbfExtends` | envydis/core-as.c:166-190 | a piece write never unfixes or changes a bit that was fixed, even when it is refused half-way |
| `Fields.InterpretHolds` | envydis/core-dis.c:55-84 | in every sign mode the low bits of the value are the field's own, so that writing it gives the same field |
| `Relocs.ReadersAgree` | envydis/core-dis.c:86-123 | the disassembler's position-relative expression, evaluated at the position, is the assembler's reading of the field |
| `Relocs.FillSound` | envydis/core-as.c:192-212 | a filled relocation reads back as the value asked for on all checked bits, and earlier fixed bits stay |
| `Relocs.FillComplete` | envydis/envyas.c:154-177 | filling in a value that some opcode of the set has is accepted and keeps that opcode |
| `Relocs.FillExact` | envydis/envyas.c:154-177 | a relocation is accepted iff some opcode of the set decodes to the value up to the checked bits, and then leaves exactly those |
| `Registers.UllRoundTrip` | envydis/core-as.c:355-404 | the decimal that `%lld` prints for any 64-bit number is read back by `strtoull` as that number, whatever follows |
| `Registers.PlainRoundTrip` | envydis/core-dis.c:218-265 | an ordinary register name with prefix, number and suffix (hi/lo halves too) is read back as its number |
| `Registers.PrintedNameIsRead` | envydis/core-as.c:355-404 | the name `printreg` prints, special registers included, is taken by `matchreg` for the number that was printed |
| `Registers.VariantMasks` | envydis/dis-intern.h:301-303 | on masks: all features asked for are there, and the mode is among those asked for, if any are |
| `Words.AddIsModular` | envydis/envyas.c:131-132 | the ripple-carry `+` used for every 64-bit sum is addition modulo 2^n |
| `Words.SubIsModular` | envydis/envyas.c:133-134 | the borrowing `-` is subtraction modulo 2^n |
| `Words.SubKeepsLow` | envydis/core-as.c:119-124 | subtracting a position whose low `shr` bits are clear leaves those bits of the target alone |
| `CalcValues.RingOperators` | envydis/envyas.c:113-134 | `+`, `-` and `*` are those of the integers modulo 2^64 |
| `CalcValues.DivisionOperators` | envydis/envyas.c:115-130 | `/` and `%` give the quotient and the remainder: x == q * y + r and r < y; with the divisor 0 neither has a value |
| `CalcValues.ShiftOperators` | envydis/envyas.c:135-138 | `<<` multiplies by 2^y modulo 2^64, `>>` divides by 2^y |
| `CalcValues.BitOperators` | envydis/envyas.c:139-144 | `&`, `|` and `^` bit by bit, on numbers |
| `CalcValues.TruthOperators` | envydis/envyas.c:145-148 | `&&` and `||` are 0 or 1, and the left operand alone decides where it can |
| `CalcValues.UnaryOperators` | envydis/envyas.c:107-112 | `-x` is -x modulo 2^64, `~x` is 2^64 - 1 - x, `!x` is 1 exactly for 0 |
| `CalcValues.WrapsOnlyOnce` | envydis/envyas.c:90-134 | for expressions of numbers, names, `+`, `-`, `*` and negations: the value is the one over the integers, reduced modulo 2^64 once at the end, however often it overflows on the way |
| `CalcValues.FixedRegisters` | envydis/core-as.c:355-377 | the registers that always read as 0 and as 1 are shown as these numbers |
| `FieldValues.FieldMeans` | envydis/core-dis.c:55-84 | `getbf`: the number that the field bits stand for (the one number of the mode's range that is congruent to them modulo 2^t, or the entry of the table that they index), with the bits of `xorend` flipped, plus `addend`, in 64 bits |
| `FieldValues.PlainFieldMeans` | envydis/core-dis.c:55-84 | without a bias the value is that number, signed |
| `FieldValues.StandsForOne` | envydis/core-dis.c:63-80 | there is only one such number |
| `FieldValues.AcceptedNumbers` | envydis/core-as.c:214-233 | an immediate is accepted into a free unbiased field exactly if it is in the mode's range and its low `shr` bits are clear |
| `FieldValues.TargetMeans` | envydis/core-as.c:104-133 | `getrbf`: the number that the field bits stand for, plus the position rounded down to a multiple of 2^shr, plus `addend`, in 64 bits |
| `FieldValues.CheckedBits` | envydis/core-as.c:208-211 | the check after filling compares all 64 bits, or with `wrapok` the remainders modulo 2^t |
| `FieldValues.RelocationNumbers` | envydis/envyas.c:154-177 | a relocation fits iff some opcode of the set goes to the value, said on numbers, and leaves exactly those that do |
| `FieldValues.ReachableTargets` | envydis/envyas.c:154-177 | how far a free field reaches: a target is accepted iff its distance from the base is in the mode's range and a multiple of 2^shr |
| `Engine.Bf` | envydis/core-as.c:88-101 | reads a field piece and marks exactly its bits |
| `Engine.GetField` | envydis/core-as.c:135-164 | the field's value, with its bits marked in place |
| `Engine.SetPiece` | envydis/core-as.c:166-190 | the two-word in-place write is the piece write of Fields, result code included |
| `Engine.SetField` | envydis/core-as.c:214-233 | the in-place `setbf` is the one of Fields |
| `Engine.FillReloc` | envydis/core-as.c:192-212 | the in-place filler is the one of Relocs |
| `Engine.MergeAll` | envydis/core-as.c:58-86 | the merging loop returns the merged matches in order |
| `Engine.RunTable` | envydis/core-as.c:260-274 | the table loop collects the matches of all rows in order |
| `Engine.Assemble` | envydis/core-as.c:739-752 | the final filter keeps exactly the matches that consumed everything |
| `Engine.DisContext.RunAtom` | envydis/core-dis.c:145-277 | an atom adds to the context what its reading says, and to the mask array the bits of the fields it reads |
| `Engine.DisContext.RunTable` | envydis/core-dis.c:135-144 | a table walk adds the reading of the first row that fires, and marks the bits of that row and of all fields read |
| `Engine.GetReloc` | envydis/core-as.c:104-133 | the relocation's value at a position, with the bits of its two pieces marked in place |
| `Engine.RunAtom` | envydis/core-as.c:260-353 | each assembler atom returns the candidates of the specification, in order, and null exactly where that does |
| `Engine.RunAtoms` | envydis/core-as.c:235-258 | the rest of a row extends every candidate in turn; one atom that returns null ends the row |
| `Engine.FindRow` | envydis/core-dis.c:138-139 | the scan stops at the first row whose bits and features fit |
| `Engine.RelocMatch` | envydis/core-as.c:192-212 | `setrbf` on a fresh match, the arrays filled in place |
| `Engine.RunField` | envydis/core-as.c:322-459 | the handlers of immediates, relocatable operands and registers return what the specification says |
| `Engine.RunPlain` | envydis/core-as.c:276-353 | the handlers of names, commands, brackets, lengths and ignored bits return what the specification says |
| `Engine.FindName` | envydis/core-as.c:355-404 | the loop of `matchreg` finds the first special register that answers to the operand, else the plain name |
| `Engine.GetTarget` | envydis/core-dis.c:87-123 | `getrbf` builds the expression of a field and marks its bits |
| `Engine.DisContext.ShowReg` | envydis/core-dis.c:218-272 | the loop of `printreg` finds the text of a register, and its field is marked |
| `LayoutFacts.LabelsCorrect` | envydis/envyas.c:290-308 | each label is worth base + offset / stride at its own line |
| `LayoutFacts.EquCorrect` | envydis/envyas.c:369-387 | each `.equ` is worth its expression under the final labels too |
| `LayoutFacts.EmittedCodeReadsAsSource` | envydis/envyas.c:403-431 | every opcode that starts with the bytes at an instruction's address reads as the tokens of its source line, targets valued at that address, and is printed with that meaning if it takes the same rows; provided the encoding fixes no bit behind its length |
| `LayoutFacts.DataReadsAsSource` | envydis/envyas.c:198-233 | after a successful layout the bytes at a data line's position spell its parameters under the final labels |
| `LayoutRun.ResolveMatch` | envydis/envyas.c:154-177 | the in-place loop over relocations is the resolution of Tables |
| `LayoutRun.SpareDrop` | envydis/envyas.c:404-412 | dropping a candidate uses up exactly one spare |
| `LayoutRun.MidwayWritten` | envydis/envyas.c:400-477 | writing a line keeps all earlier lines' bytes in place at their first-pass positions |
| `LayoutRun.MidwayRetry` | envydis/envyas.c:404-412 | a line whose relocation does not fit costs it one candidate and keeps the later positions |
| `LayoutRun.Assembler.ScanLine` | envydis/envyas.c:280-394 | one line of the first pass: position, section and label, or failure, as the scan says |
| `LayoutRun.Assembler.PassOne` | envydis/envyas.c:267-394 | the first pass succeeds iff the scan does and leaves its labels and positions |
| `LayoutRun.Assembler.EmitLine` | envydis/envyas.c:402-476 | one line of the second pass writes the line's bytes where the first pass put it, or says why not |
| `LayoutRun.Assembler.PassTwo` | envydis/envyas.c:395-477 | a clean pass leaves every line's bytes at its place; an unclean one has dropped at least one candidate |
| `LayoutRun.Assembler.Run` | envydis/envyas.c:262-480 | the loop stops after at most one pass more than there are spare candidates; on success labels are those of a scan with the final encodings and all bytes stand; on failure the line and the reason are right, under the labels of the last pass's scan |
| `LayoutRun.Assembler.WriteInsn` | envydis/envyas.c:428-430 | a resolved encoding's bytes go to the end of the current section, buffers grown as needed, other sections untouched |
| `LayoutRun.Assembler.EmitInsn` | envydis/envyas.c:403-431 | writes the first encoding, or says it does not fit (and is or is not the last one), or that a value cannot be computed |
| `LayoutRun.Assembler.DropEncoding` | envydis/envyas.c:404-412 | drops the first encoding of that line only and moves on by the length of the dropped one |
| `LayoutRun.Assembler.EmitPadding` | envydis/envyas.c:443-469 | `.align`, `.size` and `.skip` fill up to their position with zeros |
| `LayoutRun.Assembler.EmitDataLine` | envydis/envyas.c:198-233 | a data line stands whole at its position, its bytes spelling its values, or fails exactly if a value is missing or out of range |
| `LayoutRun.Assembler.BothPasses` | envydis/envyas.c:267-478 | one turn of the loop: done, or fewer spare candidates, or a reason that holds under the labels of that turn's scan |
| `Layout.SameStep` | envydis/envyas.c:280-477 | a line takes two views of one place to two views of one place, so the passes agree on every position |
| `Layout.ScanDistinct` | envydis/envyas.c:310-329 | the scan never lists two sections of one name |
| `Layout.StepForward` | envydis/envyas.c:280-394 | no line moves a position backwards or renames a section |
| `LayoutNumbers.DataLists` | envydis/envyas.c:213-230 | what a data directive writes: for each parameter its bytes, least significant first, spell its value modulo 256^n; exactly, for `.uN`, and as a signed number, for `.sN` |
| `LayoutNumbers.DataRefused` | envydis/envyas.c:213-225 | a data directive stops iff a parameter cannot be computed, or is not below 2^N for `.uN`, or not between -2^(N-1) and 2^(N-1) for `.sN` |
| `LayoutNumbers.InsnBytes` | envydis/envyas.c:428-430 | the bytes of an instruction spell its opcode modulo 256^n, least significant first |
| `LayoutNumbers.AddressNumber` | envydis/envyas.c:303 | an address is `base + offset / stride` modulo 2^64 |
| `LayoutNumbers.PaddingGoes` | envydis/envyas.c:330-368 | `.align` goes on at the first multiple that is not behind the position, `.skip` that many bytes further, `.size` at its number, or stops |
| `LayoutNumbers.LineGoes` | envydis/envyas.c:282-289 | a line moves its own section on by its length, and no other one |
| `LayoutNumbers.SectionGoes` | envydis/envyas.c:310-329 | `.section` goes on where the section was left, or starts one at offset 0 with its base |
| `LayoutNumbers.WhatStops` | envydis/envyas.c:290-391 | the first pass stops at a line exactly if it is not understood, defines a name again, has a value that cannot be computed, or is a `.size` in front of the position |
| `Sections.Extend` | envydis/envyas.c:188-196 | the doubled buffer has room behind the position and keeps every byte |
| `Sections.EmitCode` | envydis/envyas.c:428-430 | the byte loop appends the bytes of the encoding, inside the buffer: they spell the opcode modulo 256^n |
| `Sections.EmitZeros` | envydis/envyas.c:443-469 | padding appends exactly the zero bytes up to the position |
| `Sections.EmitData` | envydis/envyas.c:198-233 | a data directive appends bytes that spell its values, or stops exactly if one cannot be computed or is out of range |
| `Opcodes.ReadOpcode` | envydis/core-dis.c:484-487 | the loop that takes an opcode out of the code: bit by bit what stands there, and 0 behind the end |
| `Opcodes.OpcodeNumber` | envydis/core-dis.c:484-487 | the opcode is the number that its sixteen bytes spell |
| `Opcodes.SourceIsReadBack` | envydis/core-dis.c:481-491 | after a successful layout, the opcode that the disassembler takes from an instruction's address reads as the tokens of the source line, targets valued at that address; provided the encoding fixes no bit behind its length |
| `Discovery.Block.FixpointReached` | envydis/core-dis.c:657-679 | when every mark has been used as a start, the marks are the least closed pair of sets |
| `Discovery.Discoverer.Mark` | envydis/core-dis.c:514-518 | sets the flag at an address inside the block and nothing outside |
| `Discovery.Discoverer.Follow` | envydis/core-dis.c:481-512 | one instruction marks exactly its branch and call targets; calls that do not return end the run |
| `Discovery.Discoverer.Pass` | envydis/core-dis.c:657-679 | a pass keeps all earlier starts followed through and uses a new start unless none is left |
| `Discovery.Discoverer.Search` | envydis/core-dis.c:656-679 | least fixpoint of branch and call marks, every mark in the block used as a start, at most size + 1 passes |
| `Discovery.Discoverer.IsNoReturn` | envydis/core-dis.c:520-524 | true only for an address inside the block marked as not returning |
| `Discovery.Block.RunIsPath` | envydis/core-dis.c:655-675 | a run meets an address iff a path of instructions leads there, each right behind the other, none of them an end, a call that does not return, or marked as a stop |
| `DisBlock.MarkedAddress` | envydis/core-dis.c:536-557 | what a branch or call operand marks is, modulo 2^32, the address that the assembler reads the field as |
| `DisBlock.AssembledTargetIsMarked` | envydis/core-dis.c:536-557 | an instruction assembled to go to an address marks that address |
| `Walks.WalkReads` | envydis/core-dis.c:135-152 | the length is the last one met on the walk through the tables, and the end mark is set iff one was met |
| `Walks.MarksExactly` | envydis/core-dis.c:39-144 | a bit is marked iff a row or a field on the walk names it |
| `Walks.InstructionMarks` | envydis/core-dis.c:481-555 | what discovery learns: the branch and call addresses are exactly those that the operands of that kind on the walk stand for, with the end mark and the length of the walk |
| `Rewrite.SubstMeans` | easm/easm_xfrm.c:135-146 | substituting the position keeps the value at that position |
| `Rewrite.FoldMeans` | easm/easm_xfrm.c:35-117 | constant folding keeps the value under all labels, division by zero and short circuits included; what the values are is said in `CalcValues` |
| `Rewrite.CleanupMeans` | envydis/core-dis.c:554-575 | sign display, dropping zeros and `ADD` to `SUB` keep the value |
| `Rewrite.TidyMeans` | envydis/core-dis.c:536-603 | the whole clean-up of an operand, whichever nodes are marked, keeps its value |
| `Rewrite.ConstantTidies` | envydis/core-dis.c:536-595 | a constant operand comes out as its value, signed only when negative and not marked |
| `Rewrite.BranchTargetRoundTrip` | envydis/core-as.c:104-133 | a field that `resolve` filled at a position is decoded, substituted and folded to the source value, up to the width if `wrapok` |
| `Rewrite.TidyMemory` | envydis/core-dis.c:536-575 | a memory operand stays one of the same name, and each of its parts is worth what it was |
| `Rewrite.TidyKeeps` | envydis/core-dis.c:536-603 | at every depth, through memory operands and nested instructions: names, modifiers and shape stay, and every part is worth what it was |
| `RewriteNodes.SubstNode` | easm/easm_xfrm.c:135-146 | the in-place substitution computes the one of Rewrite |
| `RewriteNodes.FoldTree` | easm/easm_xfrm.c:35-117 | the in-place folding computes the one of Rewrite and returns 1 iff the node is a number |
| `RewriteNodes.TakeOver` | envydis/core-dis.c:560-571 | overwriting a node by its operand leaves a valid tree denoting that operand |
| `RewriteNodes.TidyTree` | envydis/core-dis.c:536-595 | the in-place `dis_pp_expr` computes the clean-up of Rewrite on the whole tree, whichever nodes are marked |
| `RewriteNodes.FoldOperands` | easm/easm_xfrm.c:35-46 | both operands are folded in place, and it is known whether both became numbers |
| `TidyForms.ConstantShown` | envydis/core-dis.c:536-559 | a constant operand is shown as its number if it is marked, and otherwise with the sign and the magnitude it has as a 64-bit signed number |
| `TidyForms.OffsetShown` | envydis/core-dis.c:560-575 | an offset to something that is no constant: 0 disappears from a sum and from a difference, a negative one becomes a subtraction of its magnitude, any other stays |
| `TidyForms.ZeroInFront` | envydis/core-dis.c:560-565 | a leading 0 of a sum disappears |
| `PrintedOperands.PrintedTargetAccepted` | envydis/core-as.c:192-212 | a relocatable operand is taken back however it is shown and still stands for its field |
| `PrintedOperands.PrintedImmediateAccepted` | envydis/core-as.c:322-335 | a plain immediate is taken back iff its top bit is clear |
| `PrintedOperands.NegativeImmediateRefused` | envydis/core-as.c:322-335 | a concrete biased field whose printed value the assembler refuses |
| `Flatten.FlattenThenParse` | envydis/core-as.c:675-737 | an instruction comes back from its tokens iff it has one sub-instruction, one expression per operand and no unknown names, at every nesting |
| `Flatten.ParseThenFlatten` | envydis/core-dis.c:408-466 | an accepted token list comes back iff it has no unknown name and no nested instruction outside brackets |
| `Flatten.SInsnBack` | envydis/core-dis.c:421-449 | the parser returns a canonical nested instruction and stops right behind it |
| `Flatten.SInsnForth` | envydis/core-dis.c:421-449 | what the parser accepted is the flattening of its result followed by the rest |
| `FlattenRun.TokenList.ConvertSInsn` | envydis/core-as.c:694-704 | appends the flattened instruction to the token list |
| `FlattenRun.TokenList.ConvertInsn` | envydis/core-as.c:731-737 | appends the flattened instruction, all sub-instructions in order |
| `FlattenRun.TokenReader.ParseExprAt` | envydis/core-dis.c:408-419 | reads one operand from the position on and moves behind it, or aborts, as the parser says |
| `FlattenRun.TokenReader.ParseSInsnAt` | envydis/core-dis.c:421-449 | the loop over names and operands is the parser's |
| `FlattenRun.TokenReader.ParseInsnAt` | envydis/core-dis.c:459-466 | accepts exactly when all tokens were used |
| `FlattenRun.TokenList.ConvertExprTop` | envydis/core-as.c:714-729 | a nested instruction is put between brackets, anything else is one token |
| `FlattenRun.TokenList.ConvertOperand` | envydis/core-as.c:685-692 | modifiers first, then the expressions |
| `FlattenRun.TokenReader.ParseSubInsnAt` | envydis/core-dis.c:451-457 | prefixes up to the first name, then an instruction, or abort, as the parser says |
| `Printer.ExprScale` | easm/easm_print.c:27-63 | `easm_print_expr` puts parentheses exactly around what binds less tightly on one common scale |
| `Printer.SExprScale` | easm/easm_print.c:65-193 | the same for `easm_print_sexpr`, six levels up |
| `Lexer.PieceNext` | easm/easm_lex.l:47-72 | every printed piece but a single `-` is found again where it was written, with its length and the flag behind it; `$` is an error token |
| `Literals.LiteralNext` | easm/easm_lex.l:57 | decimal, octal and hexadecimal literals are read as the numbers they spell, up to 2^64 - 1 |
| `Literals.StrToUllReads` | envydis/core-as.c:387 | white space, sign and digits in a register name: the number, its negation modulo 2^64, or the largest one, and where the reading stops |
| `Grammar.PrintedIsRead` | easm/easm_parse.y:150-211 | the tokens printed at any level, read by the rules of that level, give the expression and leave what follows |
| `Grammar.OperandIsRead` | easm/easm_parse.y:172-187 | the same for the operands of instructions, vectors included |
| `Grammar.SInsnIsRead` | easm/easm_parse.y:137-148 | the same for an instruction with all its operands and modifiers, nested at any depth |
| `Spacing.LexText` | easm/easm_lex.l:45-72 | the tokens of a printed text are those of its pieces, but for what the flag makes of each `-` |
| `Spacing.NegsLost` | easm/easm_lex.l:60-62 | the lexer never finds more negations than were printed, and as many only if they all stand free |
| `PrintedText.PrintFits` | easm/easm_print.c:27-193 | neighbouring pieces of a printed expression never run into each other, and a subtraction stands behind an operand only |
| `PrintedText.SpacedPrint` | easm/easm_print.c:27-193 | all negations of the text stand behind an opening bracket or at the start iff none is the first thing printed of a right operand, of a unary operand or of a step |
| `Reading.TextIsRead` | easm/easm_print.c:27-63 | the outermost text of an expression is read back as the expression iff it has no `$`, all its names are names, and every negation stands free |
| `Reading.OperandTextIsRead` | easm/easm_print.c:65-193 | the same iff for the text of an operand |
| `Misread.ProductRefused` | easm/easm_lex.l:61 | `0x2*-0x3` is what is printed for a product with a negation, and a syntax error |
| `Misread.StepReadInstead` | easm/easm_lex.l:62 | `[$r1--$r2]` is what is printed for a subtracted negation, and read as a step; so with any two registers |
| `SameText.SameTextIff` | easm/easm_print.c:27-63 | two expressions have the same text, character by character, iff they differ at most in `--` being a step or a subtracted negation |
| `SameText.SameOperandTextIff` | easm/easm_print.c:65-193 | the same for operands |
| `SameText.SteplessInjective` | easm/easm_print.c:27-63 | without `--` steps no two expressions have the same text |
| `InsnText.InsnTextIsRead` | easm/easm_print.c:224-252 | the text of a whole instruction, prefixes and `&` included, is read back as the instruction iff it is readable in that sense |
| `Intervals.MergeNextCorrect` | demmt/region.c:112-145 | merging to the right restores the canonical form and keeps the set |
| `Intervals.MergePrevCorrect` | demmt/region.c:147-180 | merging to the left restores the canonical form and keeps the set |
| `Intervals.ScanCorrect` | demmt/region.c:253-292 | what the scan does where it stops is set union in canonical form |
| `Intervals.AddRangeIsUnion` | demmt/region.c:199-293 | adding a non-empty range whose end does not wrap to a canonical list gives the canonical list of the union |
| `Intervals.AddEmpty` | demmt/region.c:199-293 | adding an empty range changes nothing if it touches a region and otherwise leaves the list insane |
| `Intervals.CanonicalUnique` | demmt/region.c:39-72 | a sane list is determined by the set it covers |
| `Intervals.AddAllCovers` | demmt/region.c:199-293 | after any run of non-empty writes the list covers exactly the offsets written |
| `Intervals.HistoryForgotten` | demmt/region.c:199-293 | two runs give the same list iff they wrote the same offsets |
| `Intervals.AddWrapped` | demmt/region.c:199-293 | a range whose end wraps is accepted iff it needs no insertion, and then the list is as it was or its last interval is cut |
| `Regions.RegionList.AreSane` | demmt/region.c:39-72 | 1 iff the head has no predecessor and the list is canonical |
| `Regions.RegionList.RangeIn` | demmt/region.c:74-87 | 1 iff one region contains the range up to its 32-bit end |
| `Regions.RegionList.DropRegion` | demmt/region.c:89-110 | takes one region out, links in both directions kept |
| `Regions.RegionList.MergeWithNext` | demmt/region.c:112-145 | the recursive merge on the linked list is the one on intervals |
| `Regions.RegionList.MergeWithPrevious` | demmt/region.c:147-180 | the recursive merge on the linked list is the one on intervals |
| `Regions.RegionList.Scan` | demmt/region.c:253-263 | the scan ends on a region, never on null |
| `Regions.RegionList.AddRangeUnchecked` | demmt/region.c:199-293 | the linked-list insertion is the one on intervals, head, last and both links consistent |
| `Regions.RegionList.Add` | demmt/region.c:295-309 | 1 iff the range is non-empty or touches a region, or its end wraps and it needs no insertion; the list is the canonical union, or for a wrapped end nothing is added to it |
| `Regions.WrittenIsForgotten` | demmt/region.c:214-221 | an accepted write after which offsets written before are forgotten |
| `MacroRuns.TurnDecreases` | demmt/macro.c:751-767 | a turn that goes on, and is not a branch to itself, lowers budget, distance and what is pending |
| `MacroRuns.RunsAreBounded` | demmt/macro.c:743-1288 | over code without an annulled branch to itself the loop returns within a number of turns linear in the code size, with the outcome of `Sim` |
| `MacroRuns.SpinsForEver` | demmt/macro.c:1154-1260 | at such a branch nothing changes any more after one turn |
| `MacroRuns.StallIsIdle` | demmt/macro.c:486-712 | a stall leaves nothing behind that running the instruction again would repeat |
| `MacroRuns.SimRest` | demmt/macro.c:743-1288 | parameters are used in order, each once; a waiting call has used them all |
| `MacroRuns.SuspendedRun` | demmt/macro.c:1359-1396 | running with some parameters and then the rest is running with all of them, in every part of the state |
| `MacroRuns.ParameterTaken` | demmt/macro.c:1387-1395 | a call made while the macro waits uses its parameter up |
| `MacroRuns.StreamedIsBatch` | demmt/macro.c:1359-1396 | launching and sending parameters one call at a time ends as one run with all of them |
| `MacroRuns.SendsAreConserved` | demmt/macro.c:459-467 | the log of sends only grows and the object state is always the initial one with the sends applied in order |
| `MacroRuns.SimIsTheLoop` | demmt/macro.c:743-1288 | the loop ends as `Sim` says, and where `Sim` says that it spins it never ends |
| `MacroRuns.NeverSpins` | demmt/macro.c:1154-1260 | no run over code without an annulled branch to itself spins |
| `MacroRuns.ReturnsIff` | demmt/macro.c:743-1288 | every call returns from every state iff the code holds no annulled branch to itself |
| `MacroEffects.ArithMeans` | demmt/macro.c:769-1110 | each result of the interpreter: sums and differences modulo 2^32, bitwise operations and bit-field moves bit by bit |
| `MacroEffects.UseEffect` | demmt/macro.c:486-712 | for each of the eight uses: what a turn appends to the log and stores, which register it writes and that the others stay, and what method and increment are afterwards, in terms of the result, the parameter and the old state |
| `MacroEffects.OtherEffect` | demmt/macro.c:956-1153 | any other instruction sends nothing and writes at most one register, with the parameter or a word of the object state |
| `MacroEffects.WhereNext` | demmt/macro.c:1154-1280 | the next instruction: behind this one, the target of the delayed branch in front of it, or its own target |
| `MacroEffects.DelaySlot` | demmt/macro.c:1172-1280 | a branch with a delay slot takes effect behind the next instruction |
| `MacroEffects.ExitSlot` | demmt/macro.c:755-1286 | an instruction with the exit bit is followed by exactly one more |
| `MacroEffects.BudgetEnds` | demmt/macro.c:761-767 | a turn that goes back is refused iff more than 100 have gone back before, and then nothing is sent or written |
| `MacroSim.Interp.Dst` | demmt/macro.c:486-712 | waits iff a parameter is needed and missing, changing nothing; otherwise sends, stores and writes what the use says (`Effect`), as the machine does, and uses the parameter up |
| `MacroSim.Interp.Execute` | demmt/macro.c:769-1274 | the in-place instruction body is the machine's |
| `MacroSim.Interp.Turn` | demmt/macro.c:751-1287 | the in-place turn is the machine's, order of arming, counting, landing and exit included |
| `MacroSim.Interp.Run` | demmt/macro.c:743-1288 | the loop ends as the machine's run does |
| `MacroSim.Replay` | demmt/macro.c:1352-1396 | a launch and a call per parameter leave the interpreter as one run with all parameters would |
| `MacroSim.Interp.WriteMaddr` | demmt/macro.c:200-205 | method address and increment from the low 18 bits of the operand |
| `MacroSim.Interp.SendValue` | demmt/macro.c:459-467 | a send stores at the method address if it is in range, logs it and steps the address |
| `MacroSim.Interp.Begin` | demmt/macro.c:753-767 | arming of the exit before the count of backward jumps, and the abort when the budget is used up |
| `MacroSim.Interp.SendParam` | demmt/macro.c:1387-1395 | one call with one parameter is the machine's run with that parameter, and the parameter is gone afterwards |
| `MacroSim.SelfBranchWord` | demmt/macro.c:1154-1260 | the words that are such branches, by two tests on the word |
| `MacroSim.OneWordSpins` | demmt/macro.c:1154-1168 | launching the one-word macro 0x27 never returns |
| `StaleSearch.RoundMisfires` | demmt/mmt_bin_decode_nvidia.c:86-143 | a round is the search of the stream up to the first misfire of the second look; then the bytes behind the record passed over are taken for a dump, and the search goes on behind them |
| `StaleSearch.SeenUnlessFatal` | demmt/mmt_bin_decode_nvidia.c:178-263 | a turn finds the record as it stands in the stream iff the turn is not fatal; a fatal one ends the program for the reason found behind the misfire |
| `StaleSearch.SeenPlain` | demmt/mmt_bin_decode.c:65-70 | a window at the front, or one that does not hold the two bytes of the record's type, finds every record as it is |
| `StaleSearch.QuietIsHarmless` | demmt/mmt_bin_decode_nvidia.c:99-142 | no turn is fatal at an ioctl after which nothing is passed over in the search |
| `StaleSearch.HeldIsHarmless` | demmt/mmt_bin_decode.c:55-56 | no turn is fatal once all that is left of the stream is in the window |
| `Loader.Window.Load` | demmt/mmt_bin_decode.c:53-98 | bytes asked for are in the window iff the stream has them and they fit; the window stays a slice of the stream at the same place; when it moves |
| `Loader.Window.LoadRecord` | demmt/mmt_bin_decode.c:194-359 | size and verdict of a record depend on the stream alone |
| `Loader.Window.LoadDump` | demmt/mmt_bin_decode_nvidia.c:75-175 | the dump found is the one of the search with its second look, in the given window; if the window has not moved, it is the one of the stream and its pointers are good |
| `Loader.Window.SkipRecords` | demmt/mmt_bin_decode_nvidia.c:86-143 | the loop ends as `SkipBy` says for how far the window was filled, the subtype being looked at again through the pointer taken before; without a move, as the stream says |
| `Loader.Window.TryIoctl` | demmt/mmt_bin_decode_nvidia.c:191-217 | one round: it ends the program iff `RoundFails` says so; if the record pointer is unchanged everything handed on is right, otherwise the window is now at the front |
| `Loader.Window.LoadIoctl` | demmt/mmt_bin_decode_nvidia.c:191-222 | the retry loop goes round at most twice; the first round ends the program, or all pointers show this record and its dumps in the end |
| `Loader.Window.LoadMemory` | demmt/mmt_bin_decode_nvidia.c:265-276 | a lone dump's header pointer is its own iff the record did not straddle the window; otherwise what it shows instead |
| `Loader.Window.DecodeOne` | demmt/mmt_bin_decode.c:176-452 | one record is delivered as parsed, unless the turn is fatal; a straddling lone dump with its own data and the header read at the place it had before the window moved; where the window is afterwards |
| `Loader.Window.Decode` | demmt/mmt_bin_decode.c:173-453 | however the input is split, the turns walk through the records of the byte string, each one finding the window as the one before has left it; all records are delivered, and the run ends as the string says, iff the last turn is not fatal, and no earlier one is; none is if no record is passed over in the search for dumps |
| `Loader.StaleHeader` | demmt/mmt_bin_decode_nvidia.c:145-162 | a concrete 26-byte stream, a window, and what is delivered from it: an address that is not the one in the stream |
| `Loader.Window.Slide` | demmt/mmt_bin_decode.c:65-70 | moving the unread bytes to the front keeps the place in the stream and the bytes |
| `Loader.Window.LoadBody` | demmt/mmt_bin_decode_nvidia.c:145-162 | a dump's header and data as the stream has them; the header pointer is where the header was before the data was loaded |
| `Loader.Window.LoadHead` | demmt/mmt_bin_decode.c:368-376 | size and verdict of an ioctl header depend on the stream alone; the window moves iff the header did not fit |
| `Loader.Window.LoadClosed` | demmt/mmt_bin_decode.c:121-131 | a record counts only if its last byte is the end marker |
| `Loader.Window.LoadArgs` | demmt/mmt_bin_decode_nvidia.c:199-216 | a round comes to what the search with its second look gives, at most as many dumps as there is room for; if the window has not moved, to the dumps of the stream, with good pointers |
| `Loader.Window.Describe` | demmt/mmt_bin_decode.c:386-388 | pointers taken while the header pointer is current show the dump of the stream |
| `Loader.Window.Deliver` | demmt/mmt_bin_decode.c:194-452 | a record of a known kind is handed out as `RecordSeen` says and passed over whole; a stale dump with its own data and the header at the old place |
| `Loader.StaleAddress` | demmt/mmt_bin_decode_nvidia.c:145-162 | the address that goes out with a stale dump, byte by byte |
| `Loader.OnlyDumpsDiffer` | demmt/mmt_bin_decode.c:173-453 | of the records that are delivered only lone dumps can differ from the stream, and their data never do |
| `Loader.StaleRun` | demmt/mmt_bin_decode_nvidia.c:265-276 | a run of the loader, turn by turn, that delivers the wrong address of `StaleHeader` |
| `StaleSkip.ThreeRecords` | demmt/mmt_bin_decode_nvidia.c:178-263 | the 32 bytes hold a sync record, an ioctl and a destroyed object |
| `StaleSkip.LostIoctl` | demmt/mmt_bin_decode_nvidia.c:143 | with 23 of them in the window the turn of the ioctl is fatal, however much is read then |
| `StaleSkip.LostRun` | demmt/mmt_bin_decode_nvidia.c:143 | a run of the loader, turn by turn, in which the ioctl is never delivered |
| `Stream.SizeAt` | demmt/mmt_bin_decode.c:194-359 | a record with a size lies inside the stream and the window and is no shorter than its fixed part |
| `Stream.DumpBody` | demmt/mmt_bin_decode.c:144-171 | a dump found lies inside the stream and the window, header before data |
| `Stream.ParseAt` | demmt/mmt_bin_decode.c:173-453 | every record moves the position forward and stays inside the stream |
| `TraceFormat.KindOfByte` | demmt/mmt_bin_decode.h:40-170 | for every type byte, the size rule is the size of the packed struct, with the length where the struct has it; no other byte has one |
| `TraceFormat.OmittedMeans` | demmt/mmt_bin_decode_nvidia.c:99-137 | which records are passed over in search of a dump |
| `TraceRoundTrip.MessageParses` | demmt/mmt_bin_decode.c:173-359 | a record encoded field by field, little-endian, with anything in front and behind, is parsed as exactly its bytes, and the next one is looked for behind it, unless it is too long for the window |
| `TraceRoundTrip.ParsedIsMessage` | demmt/mmt_bin_decode.c:173-453 | and back: whatever is parsed is an encoded record |
| `TraceRoundTrip.EncodeInjective` | demmt/mmt_bin_decode.h:40-164 | a record is determined by its bytes: type, fields and data |
| `TraceRoundTrip.LoneDumpParses` | demmt/mmt_bin_decode_nvidia.c:265-276 | a dump that stands alone is parsed with the address, name and data that were written |
| `TraceRoundTrip.ParsedIsDump` | demmt/mmt_bin_decode_nvidia.c:145-163 | and back: whatever is parsed as one was written as one |
| `TraceRoundTrip.TraceParses` | demmt/mmt_bin_decode.c:173-453 | a whole trace of records, ioctls with their dumps (up to 10 or 20, records that are passed over between them) and lone dumps is parsed as exactly its items, in order, if no dump that is not an ioctl's own is found behind it |
| `TraceRoundTrip.CutShort` | demmt/mmt_bin_decode.c:83-107 | a trace that ends inside a record ends the run there |
| `TraceRoundTrip.DamagedEnd` | demmt/mmt_bin_decode.c:122-133 | so does a record with another last byte |
| `TraceRoundTrip.UnknownEnds` | demmt/mmt_bin_decode.c:444-451 | so does a byte that is no type |
| `Forest.AddChild` | demmt/buffer.c:72-85 | the child goes into the first free slot or, if there is none, into the first of ten new ones; the others stay |
| `Forest.Disconnect` | demmt/buffer.c:87-103 | one child is cut loose, with or without compaction, and the tree stays consistent |
| `Forest.ListedOnce` | demmt/buffer.c:72-103 | a live object has a live parent iff it stands in that object's child array, and then exactly once |
| `Forest.World.Find` | demmt/buffer.c:153-160 | the newest live object of a name |
| `Forest.World.Add` | demmt/buffer.c:105-120 | the new object is first in the list, under the newest object of its parent's name, and the forest stays one |
| `Forest.World.Destroy` | demmt/buffer.c:235-285 | the object is gone, its children have no parent, all other links are as before, nothing points at it |
| `Forest.World.WalkUp` | demmt/nvrm.c:100-110 | the walk up ends with the first object of the class, or null |
| `Forest.World.FindByFunc` | demmt/nvrm.c:112-128 | the depth-first search finds a matching object of the subtree iff there is one, and then the first in the order of the child arrays |
| `Forest.World.DestroyNamed` | demmt/nvrm.c:306-347 | destroys the newest object of the name, and nothing if there is none |
| `Forest.World.Unlink` | demmt/buffer.c:267-282 | the object is taken out of the global list, all others stay in order |
| `Forest.World.OrphanChildren` | demmt/buffer.c:251-256 | exactly the children of the object lose their parent |
| `Pushbuf.PayloadIsWritten` | demmt/pushbuf.c:528-559 | datum i lands at addr + 4 * min(i, incr), and the decoder is between packets afterwards |
| `Pushbuf.HeaderPrimes` | demmt/pushbuf.c:315-460 | a packet's header leaves the decoder expecting exactly its data at its method |
| `Pushbuf.LongPrimes` | demmt/pushbuf.c:387-425 | the same for a long command's two words |
| `Pushbuf.PacketDecodes` | demmt/pushbuf.c:301-562 | decoding an encoded packet gives exactly its writes |
| `Pushbuf.BufferDecodes` | demmt/pushbuf.c:564-611 | decoding any list of packets recovers exactly their writes, in order, and ends between packets |
| `Pushbuf.Decoder.Word` | demmt/pushbuf.c:301-562 | the in-place decoder of a word is the one the packets are decoded with |
| `Pushbuf.Decoder.Buffer` | demmt/pushbuf.c:564-611 | the loop over a buffer collects the writes and stops at a jump |
| `Pushbuf.Decoder.HeaderNew` | demmt/pushbuf.c:323-384 | the header word of the newer format, all eight modes |
| `Pushbuf.Decoder.HeaderOld` | demmt/pushbuf.c:385-460 | the header word of the older format, long commands, jumps and calls included |
| `Pushbuf.ControlDecodes` | demmt/pushbuf.c:352-453 | jumps, calls, returns, conditions and masks write nothing; a jump goes on at its address; an old jump leaves bits 18 to 28 of its address as a size |
| `Pushbuf.BufferEndsAtJump` | demmt/pushbuf.c:441-447 | packets in front of a jump are all decoded, whatever stands behind it |
| `Pushbuf.SkipIgnores` | demmt/pushbuf.c:306-311 | words that are to be skipped have no effect |
| `Pushbuf.InvalidIgnored` | demmt/pushbuf.c:350-458 | a header that is none of the chipset's writes nothing and leaves the decoder between packets |

## Left out

- Memory, vector and bitfield atoms (`atommem`, `atomvec`, `atombf`), shifted registers, string and swizzle expressions.
- `SESTART` and `SEEND` assembler atoms, and `dis_parse_insn`, read past the token array at the end of the tokens (envydis/core-dis.c:416, :423, :453); here there is no match, and the parser aborts.
- The assertion that an instruction has at most 8 relocations.
- Root tables of their own for assembling (`trootas`) and for scheduling words (`tsched`): each theorem is about one table, given to both sides.
- Feature and mode checks (`var_ok`) are sets carried by the rows, the bits of the source's masks (`VariantMasks`); the variant database is not modelled.
- Shifts by 64 or more in `calc` and in folding are undefined in C; here they give 0.
- Engine.DisContext.RunTable: the status flags of a disassembled instruction and its `special` marks on operands are not part of the context.
- The g80 alignment hack and the renaming of local labels in `envyas_layout`; names are taken as already expanded.
- Malformed directive arguments arrive as one kind of bad line; the message texts are not modelled.
- Section positions are unbounded integers, not 32-bit ones, and memory never runs out.
- The marks given by label sizes are part of the initial marks of the discovery; literal pools and the listing that `envydis` prints afterwards are not modelled. Blocks that reach beyond 32-bit addresses are not either: `mark` takes a 32-bit address (envydis/core-dis.c:514), and `DisBlock` reduces targets to it.
- RewriteNodes.TidyTree: a nested instruction is a value in its node, so its operands are cleaned up by value and not in place.
- Rewrite.TidyKeeps: the `alabel` and `alit` comments are not part of the result.
- Reading.TextIsRead: colours, comments (also the label and literal comments that the disassembler prints), strings, swizzles, modifiers inside memory operands, line ends and directives are not modelled; what the lexer finds of them is one error token.
- MacroMachine.Turn1: shift counts are taken modulo 32 where C leaves them undefined; the carry flag, which the source does not implement either, is absent.
- LayoutFacts.EmittedCodeReadsAsSource: needs an encoding that fixes no bit behind its own length; `ShortCodeReadsAsSource` settles that by the table, `MacroCodeReadsAsSource` for the macro set. Which rows have their opcodes taken by earlier ones is listed for the macro set only (`MacroOwnRows`).
- Parameters sent after a macro has exited, and the pretty-printers behind `register_method_call`.
- TraceRoundTrip.TraceParses: what comes after a part that cannot be parsed is not looked at, since the program ends there.
- The text records `=` and `-` of a trace: their scan inspects a byte beyond what it asked for, so the model stops there; read errors and log output are absent too.
- Freeing of the list of written ranges.
- CPU and GPU mappings, object data, usage records and class hooks of GPU objects; the device's fifo counter.
- Binding of objects to subchannels, the skip counter (set elsewhere), method names, the indirect-buffer and user-area decoders.
- Option parsing, processes, the `rnn` register database, ioctl printers and all other output.
